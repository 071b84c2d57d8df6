/** File names: UTF-8 in memory, UTF-16 code units on disk (sections 7.6.3 and 7.7.3 of the
    Microsoft exFAT specification), compared with ASCII case folding. */
module ExfatNames {
  import opened Bytes

  /** A UTF-16 code unit. */
  type Unit = u: nat | u < 0x1_0000

  const NAME_UNITS: nat := 255
  /** Room in the scanners' name buffer, not counting the terminator. */
  const NAME_BYTES: nat := 255

  /** Number of bytes the decoder consumes for a lead byte. */
  function Stride(lead: Byte): (n: nat)
    ensures 1 <= n <= 3
  {
    if lead < 0x80 then 1 else if lead < 0xE0 then 2 else 3
  }

  /** Every lead byte is followed by the bytes the decoder reads: the terminator is not skipped. */
  predicate Decodable(s: seq<Byte>) {
    s == [] || (Stride(s[0]) <= |s| && Decodable(s[Stride(s[0])..]))
  }

  /** The code unit the decoder takes from the front of s. */
  function FirstUnit(s: seq<Byte>): Unit
    requires s != [] && Stride(s[0]) <= |s|
  {
    var c: nat := s[0];
    if c < 0x80 then c
    else
      var c1: nat := s[1];
      if c < 0xE0 then c % 32 * 64 + c1 % 64
      else
        var c2: nat := s[2];
        c % 16 * 4096 + c1 % 64 * 64 + c2 % 64
  }

  function Decode(s: seq<Byte>): (u: seq<Unit>)
    requires Decodable(s)
    ensures |u| <= |s|
    ensures s != [] ==> u != []
  {
    if s == [] then [] else [FirstUnit(s)] + Decode(s[Stride(s[0])..])
  }

  /** The units an entry set stores for a name: at most 255. */
  function StoredUnits(s: seq<Byte>): (u: seq<Unit>)
    requires Decodable(s)
    ensures |u| <= NAME_UNITS
    ensures s != [] ==> u != []
  {
    if |Decode(s)| <= NAME_UNITS then Decode(s) else Decode(s)[..NAME_UNITS]
  }

  /** UTF-8 form of one code unit; surrogates become an underscore, zero disappears. */
  function Encoded(cu: Unit): (b: seq<Byte>)
    ensures |b| <= 3
  {
    var u: nat := if 0xD800 <= cu <= 0xDFFF then 0x5F else cu;
    if u == 0 then []
    else if u < 0x80 then [u]
    else if u < 0x800 then [0xC0 + u / 64, 0x80 + u % 64]
    else [0xE0 + u / 4096, 0x80 + u / 64 % 64, 0x80 + u % 64]
  }

  /** Eleven bits as 110xxxxx 10xxxxxx. */
  predicate TwoBytes(u: nat, x: nat, y: nat) { 192 <= x < 224 && 128 <= y < 192 && u == 64 * (x - 192) + (y - 128) }

  /** Sixteen bits as 1110xxxx 10xxxxxx 10xxxxxx. */
  predicate ThreeBytes(u: nat, x: nat, y: nat, z: nat) {
    224 <= x < 240 && 128 <= y < 192 && 128 <= z < 192 && u == 4096 * (x - 224) + 64 * (y - 128) + (z - 128)
  }

  /** Zero disappears, a surrogate (0xD800 to 0xDFFF) becomes an underscore, and any other unit is its one, two
      or three bytes of UTF-8. */
  lemma {:induction false} EncodedExact(cu: Unit, b: seq<Byte>)
    ensures b == Encoded(cu) <==>
      if cu == 0 then b == []
      else if 55296 <= cu <= 57343 then b == [95]
      else if cu < 128 then |b| == 1 && b[0] == cu
      else if cu < 2048 then |b| == 2 && TwoBytes(cu, b[0], b[1])
      else |b| == 3 && ThreeBytes(cu, b[0], b[1], b[2])
  {
    if cu == 0 || cu < 128 || 55296 <= cu <= 57343 {
    } else if cu < 2048 {
      if |b| == 2 {
        TwoBytesExact(cu, b[0], b[1]);
      }
      TwoBytesExact(cu, 192 + cu / 64, 128 + cu % 64);
    } else {
      if |b| == 3 {
        ThreeBytesExact(cu, b[0], b[1], b[2]);
      }
      ThreeBytesExact(cu, 224 + cu / 4096, 128 + cu / 64 % 64, 128 + cu % 64);
    }
  }

  lemma {:induction false} TwoBytesExact(u: nat, x: nat, y: nat)
    requires 128 <= u < 2048
    ensures TwoBytes(u, x, y) <==> x == 192 + u / 64 && y == 128 + u % 64
  {
    assert u == u / 64 * 64 + u % 64;
    if TwoBytes(u, x, y) {
      Digits64(0, x - 192, y - 128);
    }
  }

  lemma {:induction false} ThreeBytesExact(u: nat, x: nat, y: nat, z: nat)
    requires 2048 <= u < 0x1_0000
    ensures ThreeBytes(u, x, y, z) <==> x == 224 + u / 4096 && y == 128 + u / 64 % 64 && z == 128 + u % 64
  {
    var q := u / 64;
    assert u == q * 64 + u % 64 && q == q / 64 * 64 + q % 64 && u / 4096 == q / 64;
    if ThreeBytes(u, x, y, z) {
      Digits64(x - 224, y - 128, z - 128);
    }
  }

  /** Append one code unit unless it no longer fits. */
  function Put(out: seq<Byte>, cu: Unit): (r: seq<Byte>)
    ensures |out| <= NAME_BYTES ==> |r| <= NAME_BYTES
    ensures 0 !in out ==> 0 !in r
  {
    if |out| + |Encoded(cu)| <= NAME_BYTES then out + Encoded(cu) else out
  }

  function PutAll(out: seq<Byte>, units: seq<Unit>): (r: seq<Byte>)
    ensures |out| <= NAME_BYTES ==> |r| <= NAME_BYTES
    ensures 0 !in out ==> 0 !in r
    decreases |units|
  {
    if units == [] then out else PutAll(Put(out, units[0]), units[1..])
  }

  lemma {:induction false} PutAllConcat(out: seq<Byte>, a: seq<Unit>, b: seq<Unit>)
    ensures PutAll(out, a + b) == PutAll(PutAll(out, a), b)
    decreases |a|
  {
    if a == [] {
      assert a + b == b;
    } else {
      assert (a + b)[1..] == a[1..] + b;
      PutAllConcat(Put(out, a[0]), a[1..], b);
    }
  }

  predicate Continuation(b: Byte) { 0x80 <= b < 0xC0 }

  /** Well-formed UTF-8 restricted to the characters the driver supports: no NUL, and only the
      Basic Multilingual Plane without surrogates. */
  predicate WellFormed(s: seq<Byte>) {
    s == [] ||
    if s[0] < 0x80 then s[0] != 0 && WellFormed(s[1..])
    else if s[0] < 0xE0 then 0xC2 <= s[0] && |s| >= 2 && Continuation(s[1]) && WellFormed(s[2..])
    else
      && s[0] < 0xF0 && |s| >= 3 && Continuation(s[1]) && Continuation(s[2])
      && 0x800 <= FirstUnit(s) && !(0xD800 <= FirstUnit(s) <= 0xDFFF)
      && WellFormed(s[3..])
  }

  lemma {:induction false} WellFormedDecodable(s: seq<Byte>)
    requires WellFormed(s)
    ensures Decodable(s)
  {
    if s != [] {
      WellFormedDecodable(s[Stride(s[0])..]);
    }
  }

  /** Base-64 digits, as the masks and shifts of both directions take them. */
  lemma {:induction false} Digits64(h: nat, m: nat, l: nat)
    requires m < 64 && l < 64
    ensures var u := h * 4096 + m * 64 + l; u / 4096 == h && u / 64 % 64 == m && u % 64 == l
  {
    var u := h * 4096 + m * 64 + l;
    assert u == 64 * (h * 64 + m) + l;
    assert u / 64 == h * 64 + m;
  }

  lemma {:induction false} TwoByteForm(c: nat, d: nat)
    requires 0xC2 <= c < 0xE0 && 0x80 <= d < 0xC0
    ensures var u := c % 32 * 64 + d % 64; 0x80 <= u < 0x800 && 0xC0 + u / 64 == c && 0x80 + u % 64 == d
  {
    assert c % 32 == c - 0xC0 && d % 64 == d - 0x80;
    Digits64(0, c - 0xC0, d - 0x80);
  }

  lemma {:induction false} ThreeByteForm(c: nat, d: nat, e: nat)
    requires 0xE0 <= c < 0xF0 && 0x80 <= d < 0xC0 && 0x80 <= e < 0xC0
    ensures
      var u := c % 16 * 4096 + d % 64 * 64 + e % 64;
      0xE0 + u / 4096 == c && 0x80 + u / 64 % 64 == d && 0x80 + u % 64 == e
  {
    assert c % 16 == c - 0xE0 && d % 64 == d - 0x80 && e % 64 == e - 0x80;
    Digits64(c - 0xE0, d - 0x80, e - 0x80);
  }

  lemma {:induction false} FirstUnitRoundTrip(s: seq<Byte>)
    requires s != [] && WellFormed(s)
    ensures Encoded(FirstUnit(s)) == s[..Stride(s[0])]
  {
    if 0x80 <= s[0] < 0xE0 {
      TwoByteForm(s[0], s[1]);
    } else if 0xE0 <= s[0] {
      ThreeByteForm(s[0], s[1], s[2]);
    }
  }

  /** Decoding a well-formed name and encoding it again appends exactly that name. */
  lemma {:induction false} NameRoundTripFrom(out: seq<Byte>, s: seq<Byte>)
    requires WellFormed(s) && |out| + |s| <= NAME_BYTES
    ensures Decodable(s)
    ensures PutAll(out, Decode(s)) == out + s
    decreases |s|
  {
    hide WellFormed, Stride, Encoded, FirstUnit, Put, PutAll, Decodable, Decode;
    WellFormedDecodable(s);
    if s == [] {
      RoundTripNothing(out, s);
    } else {
      var n := Stride(s[0]);
      FirstUnitRoundTrip(s);
      WellFormedRest(s);
      PutOne(out, FirstUnit(s), s[..n]);
      NameRoundTripFrom(out + s[..n], s[n..]);
      DecodeFirst(s, n);
      assert out + s[..n] + s[n..] == out + s;
      PutAllFirst(out, FirstUnit(s), Decode(s[n..]));
    }
  }

  lemma {:induction false} RoundTripNothing(out: seq<Byte>, s: seq<Byte>)
    requires s == [] && Decodable(s)
    ensures PutAll(out, Decode(s)) == out + s
  {
    assert out + s == out;
  }

  lemma {:induction false} DecodeFirst(s: seq<Byte>, n: nat)
    requires s != [] && Decodable(s) && n == Stride(s[0])
    ensures n <= |s| && Decodable(s[n..]) && Decode(s) == [FirstUnit(s)] + Decode(s[n..])
  {
  }

  lemma {:induction false} PutOne(out: seq<Byte>, u: Unit, b: seq<Byte>)
    requires Encoded(u) == b && |out| + |b| <= NAME_BYTES
    ensures Put(out, u) == out + b
  {
  }

  lemma {:induction false} PutAllFirst(out: seq<Byte>, u: Unit, rest: seq<Unit>)
    ensures PutAll(out, [u] + rest) == PutAll(Put(out, u), rest)
  {
    assert ([u] + rest)[1..] == rest;
  }

  lemma {:induction false} WellFormedRest(s: seq<Byte>)
    requires s != [] && WellFormed(s)
    ensures Stride(s[0]) <= |s| && WellFormed(s[Stride(s[0])..])
  {
  }

  lemma {:induction false} NameRoundTrip(s: seq<Byte>)
    requires WellFormed(s) && |s| <= NAME_BYTES
    ensures Decodable(s) && PutAll([], Decode(s)) == s
  {
    NameRoundTripFrom([], s);
    assert [] + s == s;
  }

  /** A code unit that has a UTF-8 form of its own. */
  predicate Plain(u: Unit) { u != 0 && !(0xD800 <= u <= 0xDFFF) }

  function EncodedAll(units: seq<Unit>): seq<Byte> {
    if units == [] then [] else Encoded(units[0]) + EncodedAll(units[1..])
  }

  lemma {:induction false} EncodedDecodes(u: Unit, t: seq<Byte>)
    requires Plain(u)
    ensures Encoded(u) != [] && Stride((Encoded(u) + t)[0]) == |Encoded(u)|
    ensures FirstUnit(Encoded(u) + t) == u
  {
    hide Encoded, FirstUnit;
    EncodedExact(u, Encoded(u));
    var e := Encoded(u);
    var s := e + t;
    assert forall i :: 0 <= i < |e| ==> s[i] == e[i];
    UnitRead(s, u);
  }

  /** The unit read from bytes of the right form. */
  lemma {:induction false} UnitRead(s: seq<Byte>, u: Unit)
    requires s != [] && Stride(s[0]) <= |s|
    requires
      if u < 128 then s[0] == u
      else if u < 2048 then |s| >= 2 && TwoBytes(u, s[0], s[1])
      else |s| >= 3 && ThreeBytes(u, s[0], s[1], s[2])
    ensures FirstUnit(s) == u
  {
    if 2048 <= u {
      var x: nat, y: nat, z: nat := s[0], s[1], s[2];
      assert x % 16 == x - 224 && y % 64 == y - 128 && z % 64 == z - 128;
    } else if 128 <= u {
      var x: nat, y: nat := s[0], s[1];
      assert x % 32 == x - 192 && y % 64 == y - 128;
    }
  }

  /** The other direction: names stored by any writer come back unit for unit after being shown as
      UTF-8, as long as every unit is a plain character and the whole fits the name buffer. */
  lemma {:induction false} UnitsRoundTrip(out: seq<Byte>, units: seq<Unit>)
    requires forall u <- units :: Plain(u)
    requires |out| + |EncodedAll(units)| <= NAME_BYTES
    ensures PutAll(out, units) == out + EncodedAll(units)
    ensures Decodable(EncodedAll(units)) && Decode(EncodedAll(units)) == units
    decreases |units|
  {
    hide Encoded, FirstUnit, Stride, Plain, Put, PutAll, Decode, Decodable, EncodedAll;
    EncodedAllFirst(units);
    if units == [] {
      PutAllNothing(out);
    } else {
      var e, t := Encoded(units[0]), EncodedAll(units[1..]);
      PutOne(out, units[0], e);
      EncodedDecodes(units[0], t);
      UnitsRoundTrip(out + e, units[1..]);
      assert out + e + t == out + (e + t);
      assert units == [units[0]] + units[1..];
      PutAllFirst(out, units[0], units[1..]);
      assert (e + t)[|e|..] == t;
      DecodableFirst(e + t);
      DecodeFirst(e + t, |e|);
    }
  }

  lemma {:induction false} EncodedAllFirst(units: seq<Unit>)
    ensures units == [] ==> EncodedAll(units) == [] && Decodable([]) && Decode([]) == []
    ensures units != [] ==> EncodedAll(units) == Encoded(units[0]) + EncodedAll(units[1..])
  {
  }

  lemma {:induction false} PutAllNothing(out: seq<Byte>)
    ensures PutAll(out, []) == out && out + [] == out
  {
  }

  lemma {:induction false} DecodableFirst(s: seq<Byte>)
    requires s != [] && Stride(s[0]) <= |s| && Decodable(s[Stride(s[0])..])
    ensures Decodable(s)
  {
  }

  function Lower(c: Byte): Byte { if 0x41 <= c <= 0x5A then c + 32 else c }

  /** ASCII case-insensitive equality of NUL-free names. */
  predicate NameEq(a: seq<Byte>, b: seq<Byte>) {
    |a| == |b| && forall i :: 0 <= i < |a| ==> Lower(a[i]) == Lower(b[i])
  }

  lemma {:induction false} NameEqExact(a: seq<Byte>, b: seq<Byte>)
    ensures NameEq(a, b) <==> CaseAlike(a, b)
  {
    forall i | 0 <= i < |a| && i < |b|
      ensures Lower(a[i]) == Lower(b[i]) <==> CaseTwins(a[i], b[i])
    {
      var x: nat, y: nat := a[i], b[i];
    }
  }

  lemma {:induction false} NameEqTrans(a: seq<Byte>, b: seq<Byte>, c: seq<Byte>)
    requires NameEq(a, b)
    ensures NameEq(b, a) && (NameEq(a, c) <==> NameEq(b, c)) && (NameEq(c, a) <==> NameEq(c, b))
  {
  }

  /** The driver's comparison loop decides NameEq. */
  method CompareNames(a: seq<Byte>, b: seq<Byte>) returns (eq: bool)
    ensures eq == NameEq(a, b) == CaseAlike(a, b)
  {
    NameEqExact(a, b);
    hide CaseAlike;
    var i := 0;
    while i < |a| && i < |b|
      invariant 0 <= i <= |a| && i <= |b|
      invariant forall j :: 0 <= j < i ==> Lower(a[j]) == Lower(b[j])
    {
      if Lower(a[i]) != Lower(b[i]) {
        return false;
      }
      i := i + 1;
    }
    return |a| == |b|;
  }

  /** The driver's UTF-8 to UTF-16 loop: at most 255 units of the decoded name. */
  method ToUnits(s: seq<Byte>) returns (units: seq<Unit>)
    requires Decodable(s)
    ensures units == StoredUnits(s)
  {
    units := [];
    var rest := s;
    while rest != [] && |units| < NAME_UNITS
      invariant Decodable(rest) && |units| <= NAME_UNITS
      invariant Decode(s) == units + Decode(rest)
      decreases |rest|
    {
      units := units + [FirstUnit(rest)];
      rest := rest[Stride(rest[0])..];
    }
  }

  /** A name the set builder accepts and that reads back non-empty. */
  predicate Spellable(name: seq<Byte>) { Decodable(name) && PutAll([], StoredUnits(name)) != [] }

  lemma {:induction false} SpellableUnits(name: seq<Byte>)
    requires Spellable(name)
    ensures Decodable(name) && name != [] && |StoredUnits(name)| >= 1
  {
  }

  /** Every well-formed name of at most 255 bytes is spellable and reads back as itself. */
  lemma {:induction false} WellFormedSpellable(name: seq<Byte>)
    requires WellFormed(name) && 1 <= |name| <= NAME_BYTES
    ensures Spellable(name) && PutAll([], StoredUnits(name)) == name
  {
    NameRoundTrip(name);
  }
}
