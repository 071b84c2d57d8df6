/** Division by a variable, in the few steps the other modules need. */
module Arith {
  lemma {:induction false} MulAtLeast(m: nat, k: nat)
    requires k >= 1
    ensures m * k >= m
  {
    assert m * k == m * (k - 1) + m;
  }

  lemma {:induction false} UniqueQuotient(v: nat, m: nat, q: nat, r: nat)
    requires 0 < m && v == m * q + r && r < m
    ensures v % m == r && v / m == q
  {
    var k := q - v / m;
    assert m * k == m * q - m * (v / m) == v % m - r;
    if k >= 1 {
      MulAtLeast(m, k);
    } else if k <= -1 {
      MulAtLeast(m, -k);
    }
  }

  lemma {:induction false} AddMod(a: nat, b: nat, m: nat)
    requires m > 0
    ensures (a % m + b) % m == (a + b) % m
  {
    var q := a / m;
    assert a == m * q + a % m;
    var x, y := (a % m + b) / m, (a % m + b) % m;
    assert a % m + b == m * x + y;
    assert a + b == m * (q + x) + y;
    UniqueQuotient(a + b, m, q + x, y);
  }

  function Div(a: nat, m: nat): nat
    requires m > 0
  {
    a / m
  }

  lemma {:induction false} DivMono(a: nat, b: nat, m: nat)
    requires m > 0 && a <= b
    ensures Div(a, m) <= Div(b, m)
  {
    if a / m > b / m {
      MulAtLeast(m, a / m - b / m);
      assert m * (a / m - b / m) == m * (a / m) - m * (b / m);
    }
  }

  lemma {:induction false} DivNext(a: nat, m: nat)
    requires m > 0
    ensures Div(a + m, m) == Div(a, m) + 1
  {
    var q, r := a / m, a % m;
    assert a == m * q + r;
    assert m * (q + 1) == m * q + m;
    UniqueQuotient(a + m, m, q + 1, r);
  }

  lemma {:induction false} DivSmall(a: nat, m: nat)
    requires a < m
    ensures Div(a, m) == 0
  {
  }

  /** Position q of n rows of k is column q % k of row q / k. */
  lemma {:induction false} RowColumn(q: nat, k: nat, n: nat)
    requires k > 0 && q < n * k
    ensures 0 <= q / k < n && q / k * k + q % k == q && q % k < k
  {
    var r := q / k;
    assert q == k * r + q % k;
    if r >= n {
      MulAtLeastMul(n, r, k);
    }
  }

  lemma {:induction false} MulAtLeastMul(a: nat, b: nat, k: nat)
    requires a <= b
    ensures a * k <= b * k
  {
    assert b * k == a * k + (b - a) * k;
  }

  /** Row and column of a position. */
  lemma {:induction false} RowOf(q: nat, k: nat, n: nat) returns (i: nat, j: nat)
    requires k > 0
    ensures i * k + j == q && j < k && (q < n * k ==> i < n)
  {
    i, j := q / k, q % k;
    if q < n * k {
      RowColumn(q, k, n);
    }
  }
}
