/** The bits of numbers, and the sum that both file systems rotate as they checksum their entries. */
module Bits {
  import Arith

  function Power(i: nat): (p: nat)
    ensures p > 0
  {
    if i == 0 then 1 else 2 * Power(i - 1)
  }

  /** Bit i of a number. */
  function Bit(v: nat, i: nat): nat { v / Power(i) % 2 }

  /** t has the n bits of s, each one place lower, and the lowest at the top. */
  predicate Rotated(s: nat, t: nat, n: nat) {
    t < Power(n) && forall i :: 0 <= i < n ==> Bit(t, i) == Bit(s, if i + 1 < n then i + 1 else 0)
  }

  /** Sum r is the n-bit sum s rotated right by one, with b added and the carry dropped. */
  ghost predicate Turned(s: nat, b: nat, r: nat, n: nat) {
    exists t: nat :: Rotated(s, t, n) && r == (t + b) % Power(n)
  }

  lemma {:induction false} HalfBit(v: nat, i: nat)
    ensures Bit(v, i + 1) == Bit(v / 2, i)
  {
    var p := Power(i);
    HalfDiv(v, p);
  }

  lemma {:induction false} HalfDiv(v: nat, p: nat)
    requires p > 0
    ensures v / (2 * p) == v / 2 / p
  {
    var q := v / 2 / p;
    var r := v / 2 - p * q;
    assert v / 2 == p * q + r && r < p;
    var low := 2 * r + v % 2;
    assert v == 2 * p * q + low && low < 2 * p;
    Arith.UniqueQuotient(v, 2 * p, q, low);
  }

  /** A number below 2^n is its n bits. */
  lemma {:induction false} SameBits(a: nat, b: nat, n: nat)
    requires a < Power(n) && b < Power(n) && forall i :: 0 <= i < n ==> Bit(a, i) == Bit(b, i)
    ensures a == b
  {
    if n > 0 {
      assert Bit(a, 0) == Bit(b, 0);
      forall i | 0 <= i < n - 1
        ensures Bit(a / 2, i) == Bit(b / 2, i)
      {
        HalfBit(a, i);
        HalfBit(b, i);
        assert Bit(a, i + 1) == Bit(b, i + 1);
      }
      SameBits(a / 2, b / 2, n - 1);
    }
  }

  /** Adding 2^n to a number below it sets bit n alone. */
  lemma {:induction false} TopBit(v: nat, n: nat, high: bool, i: nat)
    requires v < Power(n) && i <= n
    ensures Bit(v + (if high then Power(n) else 0), i) == if i < n then Bit(v, i) else if high then 1 else 0
    decreases n
  {
    hide Bit;
    var w := v + if high then Power(n) else 0;
    if i > 0 {
      assert Power(n) == 2 * Power(n - 1);
      assert w / 2 == v / 2 + if high then Power(n - 1) else 0;
      TopBit(v / 2, n - 1, high, i - 1);
      HalfBit(w, i - 1);
      HalfBit(v, i - 1);
    } else {
      LowBit(w);
      LowBit(v);
      if n > 0 {
        assert Power(n) == 2 * Power(n - 1);
      }
    }
  }

  lemma {:induction false} RotatedOnly(s: nat, t: nat, n: nat)
    requires n > 0 && s < Power(n) && t == s / 2 + if s % 2 == 0 then 0 else Power(n - 1)
    ensures forall u: nat :: Rotated(s, u, n) <==> u == t
  {
    hide Bit;
    assert Power(n) == 2 * Power(n - 1);
    hide Power;
    forall i | 0 <= i < n
      ensures Bit(t, i) == Bit(s, if i + 1 < n then i + 1 else 0)
    {
      RotatedBit(s, t, n, i);
    }
    assert Rotated(s, t, n);
    forall u: nat | Rotated(s, u, n)
      ensures u == t
    {
      SameBits(u, t, n);
    }
  }

  lemma {:induction false} RotatedBit(s: nat, t: nat, n: nat, i: nat)
    requires i < n && s < Power(n) && t == s / 2 + if s % 2 == 0 then 0 else Power(n - 1)
    ensures Bit(t, i) == Bit(s, if i + 1 < n then i + 1 else 0)
  {
    hide Bit;
    assert Power(n) == 2 * Power(n - 1);
    hide Power;
    TopBit(s / 2, n - 1, s % 2 == 1, i);
    if i < n - 1 {
      HalfBit(s, i);
    } else {
      LowBit(s);
    }
  }

  lemma {:induction false} LowBit(s: nat)
    ensures Bit(s, 0) == s % 2
  {
  }

  /** Shifting right by one and putting the lowest bit at the top is that rotation, and nothing else is. */
  lemma {:induction false} TurnExact(s: nat, b: nat, r: nat, n: nat)
    requires n > 0 && s < Power(n)
    ensures Turned(s, b, r, n) <==> r == (s / 2 + (if s % 2 == 0 then 0 else Power(n - 1)) + b) % Power(n)
  {
    hide Rotated, Power;
    var t := s / 2 + if s % 2 == 0 then 0 else Power(n - 1);
    RotatedOnly(s, t, n);
    assert Rotated(s, t, n);
  }

  lemma {:induction false} Powers()
    ensures Power(7) == 0x80 && Power(8) == 0x100 && Power(15) == 0x8000 && Power(16) == 0x1_0000
  {
    assert Power(4) == 16;
    assert Power(12) == 4096;
  }
}
