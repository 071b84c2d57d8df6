/** Bytes, sectors and little-endian fields, as the drivers' on-disk structures use them. */
module Bytes {
  type Byte = x: nat | x < 256

  const SECTOR: nat := 512
  const TWO16: nat := 0x1_0000
  const TWO32: nat := 0x1_0000_0000
  const TWO64: nat := 0x1_0000_0000_0000_0000

  /** One 32-byte directory entry. */
  type Slot = s: seq<Byte> | |s| == 32 witness seq(32, _ => 0)

  datatype Option<+T> = None | Some(value: T)

  function Rd16(b: seq<Byte>, o: nat): (r: nat)
    requires o + 2 <= |b|
    ensures r < TWO16
  {
    var b0: nat, b1: nat := b[o], b[o + 1];
    b0 + 256 * b1
  }

  function Rd32(b: seq<Byte>, o: nat): (r: nat)
    requires o + 4 <= |b|
    ensures r < TWO32
  {
    Rd16(b, o) + TWO16 * Rd16(b, o + 2)
  }

  function Rd64(b: seq<Byte>, o: nat): (r: nat)
    requires o + 8 <= |b|
    ensures r < TWO64
  {
    Rd32(b, o) + TWO32 * Rd32(b, o + 4)
  }

  /** Little-endian encodings of 16, 32 and 64-bit values. */
  function Le16(v: nat): (b: seq<Byte>)
    requires v < TWO16
    ensures |b| == 2
  {
    [v % 256, v / 256]
  }

  function Le32(v: nat): (b: seq<Byte>)
    requires v < TWO32
    ensures |b| == 4
  {
    Le16(v % TWO16) + Le16(v / TWO16)
  }

  function Le64(v: nat): (b: seq<Byte>)
    requires v < TWO64
    ensures |b| == 8
  {
    Le32(v % TWO32) + Le32(v / TWO32)
  }

  /** Overwrite the bytes of b from offset o with f. */
  function Splice(b: seq<Byte>, o: nat, f: seq<Byte>): (r: seq<Byte>)
    requires o + |f| <= |b|
    ensures |r| == |b|
  {
    b[..o] + f + b[o + |f|..]
  }

  lemma {:induction false} SpliceAt(b: seq<Byte>, o: nat, f: seq<Byte>)
    requires o + |f| <= |b|
    ensures forall i :: 0 <= i < |b| ==>
      Splice(b, o, f)[i] == if o <= i < o + |f| then f[i - o] else b[i]
  {
  }

  lemma {:induction false} RdLe16(b: seq<Byte>, o: nat, v: nat)
    requires v < TWO16
    requires o + 2 <= |b| && b[o..o + 2] == Le16(v)
    ensures Rd16(b, o) == v
  {
    assert b[o] == b[o..o + 2][0] && b[o + 1] == b[o..o + 2][1];
  }

  lemma {:induction false} RdLe32(b: seq<Byte>, o: nat, v: nat)
    requires v < TWO32
    requires o + 4 <= |b| && b[o..o + 4] == Le32(v)
    ensures Rd32(b, o) == v
  {
    var f := b[o..o + 4];
    assert b[o..o + 2] == f[..2] == Le16(v % TWO16);
    assert b[o + 2..o + 4] == f[2..] == Le16(v / TWO16);
    RdLe16(b, o, v % TWO16);
    RdLe16(b, o + 2, v / TWO16);
  }

  lemma {:induction false} RdLe64(b: seq<Byte>, o: nat, v: nat)
    requires v < TWO64
    requires o + 8 <= |b| && b[o..o + 8] == Le64(v)
    ensures Rd64(b, o) == v
  {
    var f := b[o..o + 8];
    assert b[o..o + 4] == f[..4] == Le32(v % TWO32);
    assert b[o + 4..o + 8] == f[4..] == Le32(v / TWO32);
    RdLe32(b, o, v % TWO32);
    RdLe32(b, o + 4, v / TWO32);
  }

  // ---- ASCII letters ---------------------------------------------------------------------------

  /** The same byte, or the same ASCII letter as a capital (0x41 to 0x5A) and as a small one, 32 above. */
  predicate CaseTwins(x: nat, y: nat) {
    x == y || (65 <= x <= 90 && y == x + 32) || (65 <= y <= 90 && x == y + 32)
  }

  /** Texts that are the same up to the case of ASCII letters. */
  predicate CaseAlike(a: seq<Byte>, b: seq<Byte>) {
    |a| == |b| && forall i :: 0 <= i < |a| ==> CaseTwins(a[i], b[i])
  }

  /** The byte itself, and for a small ASCII letter (97 to 122) the capital one, 32 below. */
  predicate Capital(x: nat, y: nat) { if 97 <= x <= 122 then x == y + 32 else x == y }
}
