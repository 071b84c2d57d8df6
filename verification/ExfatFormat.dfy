/** Entry sets as other implementations read them: the checksum and the name hash bit by bit, and every
    field at its place (sections 6.3.3, 7.4, 7.6 and 7.7 of the Microsoft exFAT specification). */
module ExfatFormat {
  import opened Bits
  import opened Bytes
  import opened ExfatNames
  import opened ExfatEntrySet

  // ---- Checksum and hash ---------------------------------------------------------------------------

  /** The driver's step is the rotation of sixteen bits. */
  lemma {:induction false} RotAddTurns(s: nat, b: Byte, r: nat)
    requires s < TWO16
    ensures Turned(s, b, r, 16) <==> r == RotAdd(s, b)
  {
    Powers();
    TurnExact(s, b, r, 16);
  }

  /** The sums after each byte of a set, those of the checksum field passed over. */
  ghost predicate ChecksumSums(ents: seq<Slot>, sums: seq<nat>) {
    && |sums| == 32 * |ents| + 1 && sums[0] == 0
    && forall i :: 0 <= i < 32 * |ents| ==>
         if i == 2 || i == 3 then sums[i + 1] == sums[i] else Turned(sums[i], ents[i / 32][i % 32], sums[i + 1], 16)
  }

  /** The sums after each byte of a name's units, up-cased, low byte first. */
  ghost predicate HashSums(units: seq<Unit>, sums: seq<nat>) {
    && |sums| == 2 * |units| + 1 && sums[0] == 0
    && forall k :: 0 <= k < |units| ==> HashStep(units[k], sums[2 * k], sums[2 * k + 1], sums[2 * k + 2])
  }

  ghost predicate HashStep(u: Unit, before: nat, between: nat, after: nat) {
    exists c: nat :: UpCased(u, c) && Turned(before, c % 256, between, 16) && Turned(between, c / 256, after, 16)
  }

  /** The same letter as a capital, for the 26 small ASCII letters; any other unit is itself. */
  predicate UpCased(u: Unit, c: nat) {
    if 97 <= u <= 122 then 65 <= c <= 90 && c - 65 == u - 97 else c == u
  }

  lemma {:induction false} FlatAt(ents: seq<Slot>, i: nat)
    requires i < 32 * |ents|
    ensures Flat(ents)[i] == ents[i / 32][i % 32]
  {
    if i >= 32 {
      FlatAt(ents[1..], i - 32);
    }
  }

  lemma {:induction false} ChecksumAlong(ents: seq<Slot>, sums: seq<nat>, i: nat)
    requires ChecksumSums(ents, sums) && i <= 32 * |ents|
    ensures sums[i] < TWO16 && ChecksumFrom(sums[i], Flat(ents)[i..], i) == SetChecksum(ents)
  {
    hide Turned;
    var bytes := Flat(ents);
    if i == 0 {
      assert bytes[0..] == bytes;
    } else {
      ChecksumAlong(ents, sums, i - 1);
      FlatAt(ents, i - 1);
      RotAddTurns(sums[i - 1], bytes[i - 1], sums[i]);
      assert bytes[i - 1..][1..] == bytes[i..];
      var k := i - 1;
      var b := ents[k / 32][k % 32];
      assert if k == 2 || k == 3 then sums[k + 1] == sums[k] else Turned(sums[k], b, sums[k + 1], 16);
    }
  }

  /** SetChecksum is where that sum ends. */
  lemma {:induction false} ChecksumExact(ents: seq<Slot>, v: nat)
    ensures v == SetChecksum(ents) <==> exists sums :: ChecksumSums(ents, sums) && sums[32 * |ents|] == v
  {
    hide Turned, ChecksumFrom;
    var n := 32 * |ents|;
    var sums: seq<nat>, i := [0], 0;
    while i < n
      invariant 0 <= i <= n && |sums| == i + 1 && sums[0] == 0 && forall k :: 0 <= k <= i ==> sums[k] < TWO16
      invariant forall k :: 0 <= k < i ==>
        if k == 2 || k == 3 then sums[k + 1] == sums[k] else Turned(sums[k], ents[k / 32][k % 32], sums[k + 1], 16)
    {
      var b := ents[i / 32][i % 32];
      RotAddTurns(sums[i], b, RotAdd(sums[i], b));
      sums := sums + [if i == 2 || i == 3 then sums[i] else RotAdd(sums[i], b)];
      i := i + 1;
    }
    assert ChecksumSums(ents, sums);
    forall t | ChecksumSums(ents, t)
      ensures t[n] == SetChecksum(ents)
    {
      ChecksumAlong(ents, t, n);
      ChecksumNothing(t[n], Flat(ents)[n..], n);
    }
  }

  lemma {:induction false} ChecksumNothing(sum: nat, bytes: seq<Byte>, i: nat)
    requires sum < TWO16 && bytes == []
    ensures ChecksumFrom(sum, bytes, i) == sum
  {
  }

  lemma {:induction false} HashAlong(units: seq<Unit>, sums: seq<nat>, k: nat)
    requires HashSums(units, sums) && k <= |units|
    ensures sums[2 * k] < TWO16 && NameHash(sums[2 * k], units[k..]) == NameHash(0, units)
  {
    hide Turned;
    if k == 0 {
      assert units[0..] == units;
    } else {
      HashAlong(units, sums, k - 1);
      var j := k - 1;
      assert HashStep(units[j], sums[2 * j], sums[2 * j + 1], sums[2 * j + 2]);
      var c: nat :| UpCased(units[j], c) && Turned(sums[2 * j], c % 256, sums[2 * j + 1], 16)
        && Turned(sums[2 * j + 1], c / 256, sums[2 * j + 2], 16);
      RotAddTurns(sums[2 * j], c % 256, sums[2 * j + 1]);
      RotAddTurns(sums[2 * j + 1], c / 256, sums[2 * j + 2]);
      assert units[j..][1..] == units[k..];
    }
  }

  /** NameHash is where that sum ends. */
  lemma {:induction false} HashExact(units: seq<Unit>, v: nat)
    ensures v == NameHash(0, units) <==> exists sums :: HashSums(units, sums) && sums[2 * |units|] == v
  {
    hide Turned, NameHash;
    var n := |units|;
    var sums: seq<nat>, k := [0], 0;
    while k < n
      invariant 0 <= k <= n && |sums| == 2 * k + 1 && sums[0] == 0 && forall i :: 0 <= i <= 2 * k ==> sums[i] < TWO16
      invariant forall j :: 0 <= j < k ==> HashStep(units[j], sums[2 * j], sums[2 * j + 1], sums[2 * j + 2])
    {
      var c: nat := if 97 <= units[k] <= 122 then units[k] - 32 else units[k];
      var low := RotAdd(sums[2 * k], c % 256);
      var high := RotAdd(low, c / 256);
      RotAddTurns(sums[2 * k], c % 256, low);
      RotAddTurns(low, c / 256, high);
      assert UpCased(units[k], c);
      assert HashStep(units[k], sums[2 * k], low, high);
      sums := sums + [low, high];
      k := k + 1;
    }
    assert HashSums(units, sums);
    forall t | HashSums(units, t)
      ensures t[2 * n] == NameHash(0, units)
    {
      HashAlong(units, t, n);
      HashNothing(t[2 * n], units[n..]);
    }
  }

  lemma {:induction false} HashNothing(h: nat, units: seq<Unit>)
    requires h < TWO16 && units == []
    ensures NameHash(h, units) == h
  {
  }

  // ---- Every field at its place --------------------------------------------------------------------

  predicate AllZero(s: seq<Byte>) { forall i :: 0 <= i < |s| ==> s[i] == 0 }

  /** A built set, byte by byte. */
  ghost predicate SetBytes(ents: seq<Slot>, units: seq<Unit>, attr: nat, first: nat, size: nat, flags: Byte) {
    && |ents| == 2 + (|units| + 14) / 15 && FileBytes(ents, attr) && StreamBytes(ents[1], units, first, size, flags)
    && forall k :: 0 <= k < |ents| - 2 ==> NameBytes(ents[2 + k], units, 15 * k)
  }

  /** Type, number of further entries, checksum, attributes, three time stamps and their zones. */
  ghost predicate FileBytes(ents: seq<Slot>, attr: nat)
    requires |ents| >= 2
  {
    var s := ents[0];
    && s[0] == 0x85 && s[1] == |ents| - 1 && Rd16(s, 2) == SetChecksum(ents)
    && Rd16(s, 4) == (if attr == 0 then 0x20 else attr) && AllZero(s[6..8])
    && Rd32(s, 8) == Rd32(s, 12) == Rd32(s, 16) == 0x5821_0000
    && AllZero(s[20..22]) && s[22] == s[23] == s[24] == 0x80 && AllZero(s[25..])
  }

  /** Type, flags, length and hash of the name, the length of the data twice, first cluster. */
  ghost predicate StreamBytes(s: Slot, units: seq<Unit>, first: nat, size: nat, flags: Byte) {
    && s[0] == 0xC0 && s[1] == flags && s[2] == 0 && s[3] == |units| && Rd16(s, 4) == NameHash(0, units)
    && AllZero(s[6..8]) && Rd64(s, 8) == size && AllZero(s[16..20]) && Rd32(s, 20) == first && Rd64(s, 24) == size
  }

  /** Fifteen units of the name from unit `from` on, zeros behind its end. */
  ghost predicate NameBytes(s: Slot, units: seq<Unit>, from: nat) {
    && s[0] == 0xC1 && s[1] == 1
    && forall j :: 0 <= j < 15 ==> Rd16(s, 2 + 2 * j) == if from + j < |units| then units[from + j] else 0
  }

  lemma {:induction false} FilePlaces(s: Slot, secondaries: Byte, attr: nat)
    requires attr < TWO16
    requires forall i :: 0 <= i < 32 && i != 2 && i != 3 ==> s[i] == FileSlot(0, secondaries, attr)[i]
    ensures s[0] == 0x85 && s[1] == secondaries && Rd16(s, 4) == (if attr == 0 then 0x20 else attr) && AllZero(s[6..8])
    ensures Rd32(s, 8) == Rd32(s, 12) == Rd32(s, 16) == 0x5821_0000
    ensures AllZero(s[20..22]) && s[22] == s[23] == s[24] == 0x80 && AllZero(s[25..])
  {
    hide Rd16, Rd32, Le16, Le32;
    var f := FileSlot(0, secondaries, attr);
    var a := if attr != 0 then attr else 0x20;
    assert f[..2] == [0x85, secondaries] && f[4..] == Le16(a) + FileRest();
    assert s[..2] == f[..2] && s[4..] == f[4..];
    assert s[0] == s[..2][0] && s[1] == s[..2][1];
    FileRestPlaces(s, a);
  }

  /** A File entry from offset 6 on. */
  function FileRest(): (b: seq<Byte>)
    ensures |b| == 26
  {
    [0, 0] + Le32(0x5821_0000) + Le32(0x5821_0000) + Le32(0x5821_0000) + [0, 0, 0x80, 0x80, 0x80, 0, 0, 0, 0, 0, 0, 0]
  }

  lemma {:induction false} FileRestPlaces(s: Slot, a: nat)
    requires a < TWO16 && s[4..] == Le16(a) + FileRest()
    ensures Rd16(s, 4) == a && AllZero(s[6..8]) && Rd32(s, 8) == Rd32(s, 12) == Rd32(s, 16) == 0x5821_0000
    ensures AllZero(s[20..22]) && s[22] == s[23] == s[24] == 0x80 && AllZero(s[25..])
  {
    hide Rd16, Rd32, Le16, Le32;
    var r := s[4..];
    assert s[4..6] == r[..2] && s[6..8] == r[2..4] == [0, 0];
    RdLe16(s, 4, a);
    assert s[8..12] == r[4..8] && s[12..16] == r[8..12] && s[16..20] == r[12..16];
    RdLe32(s, 8, 0x5821_0000);
    RdLe32(s, 12, 0x5821_0000);
    RdLe32(s, 16, 0x5821_0000);
    assert s[20..] == r[16..] == [0, 0, 0x80, 0x80, 0x80, 0, 0, 0, 0, 0, 0, 0];
    assert s[20..22] == s[20..][..2] && s[25..] == s[20..][5..];
    assert s[22] == s[20..][2] && s[23] == s[20..][3] && s[24] == s[20..][4];
  }

  lemma {:induction false} StreamPlaces(flags: Byte, units: seq<Unit>, first: nat, size: nat)
    requires |units| <= NAME_UNITS && first < TWO32 && size < TWO64
    ensures StreamBytes(StreamSlot(flags, |units|, NameHash(0, units), first, size), units, first, size, flags)
  {
    hide NameHash, Rd16, Rd32, Rd64;
    var h := NameHash(0, units);
    var s := StreamSlot(flags, |units|, h, first, size);
    assert s[4..6] == Le16(h) && s[8..16] == Le64(size) && s[20..24] == Le32(first) && s[24..32] == Le64(size);
    RdLe16(s, 4, h);
    RdLe64(s, 8, size);
    RdLe32(s, 20, first);
    RdLe64(s, 24, size);
  }

  lemma {:induction false} NamePlaces(units: seq<Unit>, k: nat)
    requires k < NameSlots(|units|)
    ensures NameBytes(NameSlotRun(units)[k], units, 15 * k)
    decreases k
  {
    hide Rd16, NameSlot;
    var n := Min(15, |units|);
    if k == 0 {
      NamePlace(units[..n]);
    } else {
      NamePlaces(units[n..], k - 1);
    }
  }

  lemma {:induction false} NamePlace(units: seq<Unit>)
    requires |units| <= 15
    ensures NameBytes(NameSlot(units), units, 0)
  {
    var s := NameSlot(units);
    forall j | 0 <= j < 15
      ensures Rd16(s, 2 + 2 * j) == if j < |units| then units[j] else 0
    {
      if j < |units| {
        UnitBytesAt(units, j);
        assert s[2 + 2 * j..4 + 2 * j] == UnitBytes(units)[2 * j..2 * j + 2];
        RdLe16(s, 2 + 2 * j, units[j]);
      }
    }
  }

  lemma {:induction false} SetLayout(units: seq<Unit>, attr: nat, first: nat, size: nat, flags: Byte)
    requires 1 <= |units| <= NAME_UNITS && attr < TWO16 && first < TWO32 && size < TWO64
    ensures SetBytes(BuiltSet(units, attr, first, size, flags), units, attr, first, size, flags)
  {
    hide SetChecksum, NameHash, FileSlot, StreamSlot, NameSlotRun, Rd16, Rd32, Rd64;
    var raw := RawSet(units, attr, first, size, flags);
    var ents := BuiltSet(units, attr, first, size, flags);
    var n, run := NameSlots(|units|), NameSlotRun(units);
    WithChecksumOk(raw);
    FilePlaces(ents[0], 1 + n, attr);
    assert ents[1] == ents[1..][0] == raw[1..][0] == raw[1];
    StreamPlaces(flags, units, first, size);
    forall k | 0 <= k < n
      ensures NameBytes(ents[2 + k], units, 15 * k)
    {
      assert ents[2 + k] == ents[1..][1 + k] == raw[1..][1 + k] == run[k];
      NamePlaces(units, k);
    }
  }

  /** Byte i of slot k belongs to the checksum or to one of the two lengths. */
  predicate Renewed(k: nat, i: nat) { if k == 0 then 2 <= i < 4 else k == 1 && (8 <= i < 16 || 24 <= i) }

  /** Rewriting the length of a set puts it at both places of the Stream entry, renews the checksum
      and touches no other byte. */
  lemma {:induction false} RegrownLayout(ents: seq<Slot>, size: nat)
    requires |ents| >= 2 && size < TWO64
    ensures
      var r := WithSize(ents, size);
      && Rd64(r[1], 8) == Rd64(r[1], 24) == size && Rd16(r[0], 2) == SetChecksum(r)
      && forall k, i :: 0 <= k < |ents| && 0 <= i < 32 && !Renewed(k, i) ==> r[k][i] == ents[k][i]
  {
    hide SetChecksum, WithChecksum, Rd16, Rd64;
    var s1: Slot := Splice(Splice(ents[1], 8, Le64(size)), 24, Le64(size));
    var raw := ents[1 := s1];
    var r := WithSize(ents, size);
    assert s1[8..16] == Le64(size) && s1[24..32] == Le64(size);
    RdLe64(s1, 8, size);
    RdLe64(s1, 24, size);
    WithChecksumOk(raw);
    assert r[1] == r[1..][0] == raw[1..][0] == s1;
    forall k | 1 <= k < |ents|
      ensures r[k] == raw[k]
    {
      assert r[k] == r[1..][k - 1] == raw[1..][k - 1];
    }
  }

  /** Retiring an entry clears the in-use bit of its type and touches no other byte. */
  lemma {:induction false} RetiredLayout(s: Slot, r: Slot)
    ensures r == Retired(s) <==>
      (r[0] == if s[0] >= 128 then s[0] - 128 else s[0]) && forall i :: 1 <= i < 32 ==> r[i] == s[i]
  {
    var t: nat := s[0];
    assert t % 128 == if t >= 128 then t - 128 else t;
    if forall i :: 1 <= i < 32 ==> r[i] == s[i] {
      assert Retired(s)[1..] == r[1..];
      assert r == [r[0]] + r[1..] && Retired(s) == [Retired(s)[0]] + Retired(s)[1..];
    }
  }
}
