/** Windows into circular buffers. */
module Circular {
  import opened Arith

  /** Index j places after index `at`, going round. */
  function Place(at: nat, j: nat, m: nat): (i: nat)
    requires m > 0
    ensures i < m
  {
    (at + j) % m
  }

  lemma {:induction false} PlaceTwice(at: nat, i: nat, j: nat, m: nat)
    requires m > 0
    ensures Place(Place(at, i, m), j, m) == Place(at, i + j, m)
  {
    AddMod(at + i, j, m);
  }

  lemma {:induction false} PlaceZero(at: nat, m: nat)
    requires at < m
    ensures Place(at, 0, m) == at && Place(at, m, m) == at
  {
    UniqueQuotient(at, m, 0, at);
    UniqueQuotient(at + m, m, 1, at);
  }

  /** Fewer than m places on, all indices are different. */
  lemma {:induction false} PlaceDiffers(at: nat, i: nat, j: nat, m: nat)
    requires i < j < m
    ensures Place(at, i, m) != Place(at, j, m)
  {
    if Place(at, i, m) == Place(at, j, m) {
      var q, r := (at + i) / m, (at + i) % m;
      var p := (at + j) / m;
      assert at + i == m * q + r && at + j == m * p + r;
      assert m * (p - q) == m * p - m * q == j - i;
      if p - q >= 1 {
        MulAtLeast(m, p - q);
      } else if p - q <= -1 {
        MulAtLeast(m, q - p);
      }
    }
  }

  /** The n elements from index `at` on. */
  function Window<T>(s: seq<T>, at: nat, n: nat): (w: seq<T>)
    requires n <= |s|
    ensures |w| == n
    ensures forall j :: 0 <= j < n ==> w[j] == s[Place(at, j, |s|)]
  {
    seq(n, j requires 0 <= j < n => s[Place(at, j, |s|)])
  }

  lemma {:induction false} WindowSplit<T>(s: seq<T>, at: nat, a: nat, b: nat)
    requires a + b <= |s| && |s| > 0
    ensures Window(s, at, a + b) == Window(s, at, a) + Window(s, Place(at, a, |s|), b)
  {
    forall j | 0 <= j < b
      ensures Place(Place(at, a, |s|), j, |s|) == Place(at, a + j, |s|)
    {
      PlaceTwice(at, a, j, |s|);
    }
  }

  /** Writing behind a window makes it longer by the element written. */
  lemma {:induction false} WindowPush<T>(s: seq<T>, at: nat, n: nat, x: T)
    requires n < |s|
    ensures Window(s[Place(at, n, |s|) := x], at, n + 1) == Window(s, at, n) + [x]
  {
    forall j | 0 <= j < n
      ensures Place(at, j, |s|) != Place(at, n, |s|)
    {
      PlaceDiffers(at, j, n, |s|);
    }
  }

  /** The first element of a window. */
  lemma {:induction false} WindowFirst<T>(s: seq<T>, at: nat, n: nat)
    requires 0 < n <= |s| && at < |s|
    ensures Window(s, at, n) == [s[at]] + Window(s, Place(at, 1, |s|), n - 1)
  {
    WindowSplit(s, at, 1, n - 1);
    PlaceZero(at, |s|);
    assert Window(s, at, 1) == [s[at]];
  }

  /** How far index b is ahead of index a. */
  function Ahead(a: nat, b: nat, m: nat): (n: nat)
    requires a < m && b < m
    ensures n < m
  {
    (b + m - a) % m
  }

  lemma {:induction false} AheadPlace(a: nat, b: nat, m: nat)
    requires a < m && b < m
    ensures Place(a, Ahead(a, b, m), m) == b
  {
    AddMod(b + m - a, a, m);
    PlaceZero(b, m);
  }

  lemma {:induction false} PlaceAhead(a: nat, n: nat, m: nat)
    requires a < m && n < m
    ensures Ahead(a, Place(a, n, m), m) == n
  {
    AddMod(a + n, m - a, m);
    UniqueQuotient(n + m, m, 1, n);
  }
}
