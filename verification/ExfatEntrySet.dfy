/** Directory entry sets: one File entry, one Stream Extension entry and up to 17 File Name
    entries (sections 7.4, 7.6 and 7.7 of the Microsoft exFAT specification). */
module ExfatEntrySet {
  import opened Bytes
  import opened ExfatNames

  const ENT_FILE: Byte := 0x85
  const ENT_STREAM: Byte := 0xC0
  const ENT_NAME: Byte := 0xC1
  const ATTR_DIR: nat := 0x10
  const ATTR_ARCHIVE: nat := 0x20
  const MAX_SET: nat := 19
  const TIMESTAMP: nat := 0x5821_0000

  /** What a directory scanner reports about one entry set. */
  datatype Entry = Entry(name: seq<Byte>, isDir: bool, first: nat, size: nat, contig: bool)

  // ---- Checksums -----------------------------------------------------------

  /** Rotate a 16-bit sum right by one and add a byte, as both on-disk checksums do. */
  function RotAdd(sum: nat, b: Byte): (r: nat)
    requires sum < TWO16
    ensures r < TWO16
  {
    (sum / 2 + sum % 2 * 0x8000 + b) % TWO16
  }

  /** Sum of bytes, where bytes[0] sits at offset i of the set; offsets 2 and 3 are skipped. */
  function ChecksumFrom(sum: nat, bytes: seq<Byte>, i: nat): (r: nat)
    requires sum < TWO16
    ensures r < TWO16
    decreases |bytes|
  {
    if bytes == [] then sum
    else ChecksumFrom(if i == 2 || i == 3 then sum else RotAdd(sum, bytes[0]), bytes[1..], i + 1)
  }

  function Flat(ents: seq<Slot>): (b: seq<Byte>)
    ensures |b| == 32 * |ents|
  {
    if ents == [] then [] else ents[0] + Flat(ents[1..])
  }

  /** SetChecksum of an entry set (section 6.3.3). */
  function SetChecksum(ents: seq<Slot>): (r: nat)
    ensures r < TWO16
  {
    ChecksumFrom(0, Flat(ents), 0)
  }

  lemma {:induction false} ChecksumConcat(sum: nat, a: seq<Byte>, b: seq<Byte>, i: nat)
    requires sum < TWO16
    ensures ChecksumFrom(sum, a + b, i) == ChecksumFrom(ChecksumFrom(sum, a, i), b, i + |a|)
    decreases |a|
  {
    if a == [] {
      assert a + b == b;
    } else {
      assert (a + b)[1..] == a[1..] + b;
      ChecksumConcat(if i == 2 || i == 3 then sum else RotAdd(sum, a[0]), a[1..], b, i + 1);
    }
  }

  /** The bytes of the checksum field do not influence the checksum. */
  lemma {:induction false} ChecksumSkipsField(a: seq<Byte>, b: seq<Byte>)
    requires |a| == |b| >= 4 && a[..2] == b[..2] && a[4..] == b[4..]
    ensures ChecksumFrom(0, a, 0) == ChecksumFrom(0, b, 0)
  {
    forall s: seq<Byte> | |s| >= 4
      ensures ChecksumFrom(0, s, 0) == ChecksumFrom(ChecksumFrom(0, s[..2], 0), s[4..], 4)
    {
      assert s == s[..2] + (s[2..4] + s[4..]);
      ChecksumConcat(0, s[..2], s[2..4] + s[4..], 0);
      var sum := ChecksumFrom(0, s[..2], 0);
      ChecksumConcat(sum, s[2..4], s[4..], 2);
      assert s[2..4][1..][1..] == [];
    }
  }

  /** The driver's checksum loop. */
  method ComputeChecksum(ents: seq<Slot>) returns (cs: nat)
    ensures cs == SetChecksum(ents)
  {
    cs := 0;
    var bytes := Flat(ents);
    var i := 0;
    while i < |bytes|
      invariant 0 <= i <= |bytes| && cs < TWO16
      invariant SetChecksum(ents) == ChecksumFrom(cs, bytes[i..], i)
    {
      if i != 2 && i != 3 {
        cs := RotAdd(cs, bytes[i]);
      }
      i := i + 1;
    }
  }

  /** NameHash over the up-cased name, low byte then high byte of each unit. */
  function NameHash(h: nat, units: seq<Unit>): (r: nat)
    requires h < TWO16
    ensures r < TWO16
    decreases |units|
  {
    if units == [] then h
    else
      var u: nat := if 0x61 <= units[0] <= 0x7A then units[0] - 32 else units[0];
      NameHash(RotAdd(RotAdd(h, u % 256), u / 256), units[1..])
  }

  // ---- Reading a set -------------------------------------------------------

  function Min(a: nat, b: nat): nat { if a < b then a else b }

  /** The 15 code units of a File Name entry. */
  function SlotUnits(s: Slot): (u: seq<Unit>)
    ensures |u| == 15
  {
    seq(15, k requires 0 <= k < 15 => Rd16(s, 2 + 2 * k))
  }

  /** The first n code units spread over a run of File Name entries. */
  function NameUnits(slots: seq<Slot>, n: nat): (u: seq<Unit>)
    ensures |u| <= n
  {
    if slots == [] then []
    else SlotUnits(slots[0])[..Min(15, n)] + NameUnits(slots[1..], n - Min(15, n))
  }

  function NameSlots(nlen: nat): nat { (nlen + 14) / 15 }

  function DataLength(stream: Slot): nat { Rd64(stream, 24) }

  /** The code units of a set's name. */
  function StoredName(ents: seq<Slot>): seq<Unit>
    requires |ents| >= 2
  {
    NameUnits(ents[2..], ents[1][3])
  }

  function EntryOf(ents: seq<Slot>): Entry
    requires |ents| >= 2
  {
    Entry(PutAll([], StoredName(ents)), Rd16(ents[0], 4) / 16 % 2 == 1,
          Rd32(ents[1], 20), DataLength(ents[1]), ents[1][1] / 2 % 2 == 1)
  }

  /** The right entry types in the right numbers. */
  predicate SetShape(ents: seq<Slot>) {
    && 3 <= |ents| <= MAX_SET
    && ents[0][0] == ENT_FILE && ents[0][1] == |ents| - 1
    && ents[1][0] == ENT_STREAM && ents[1][3] >= 1 && |ents| - 2 == NameSlots(ents[1][3])
    && (forall k :: 2 <= k < |ents| ==> ents[k][0] == ENT_NAME)
  }

  /** A complete entry set as this driver writes and expects it, with its SetChecksum current. */
  predicate SetOk(ents: seq<Slot>) {
    SetShape(ents) && Rd16(ents[0], 2) == SetChecksum(ents)
  }

  // ---- Building a set ------------------------------------------------------

  function FileSlot(cs: nat, secondaries: Byte, attr: nat): (s: Slot)
    requires cs < TWO16 && attr < TWO16
  {
    var a := if attr != 0 then attr else ATTR_ARCHIVE;
    [ENT_FILE, secondaries] + Le16(cs) + Le16(a) + [0, 0]
    + Le32(TIMESTAMP) + Le32(TIMESTAMP) + Le32(TIMESTAMP)
    + [0, 0, 0x80, 0x80, 0x80, 0, 0, 0, 0, 0, 0, 0]
  }

  function StreamSlot(flags: Byte, nlen: Byte, hash: nat, first: nat, size: nat): (s: Slot)
    requires hash < TWO16 && first < TWO32 && size < TWO64
  {
    [ENT_STREAM, flags, 0, nlen] + Le16(hash) + [0, 0]
    + Le64(size) + [0, 0, 0, 0] + Le32(first) + Le64(size)
  }

  function UnitBytes(units: seq<Unit>): (b: seq<Byte>)
    ensures |b| == 2 * |units|
  {
    if units == [] then [] else Le16(units[0]) + UnitBytes(units[1..])
  }

  /** One File Name entry holding at most 15 units, zero padded. */
  function NameSlot(units: seq<Unit>): (s: Slot)
    requires |units| <= 15
  {
    [ENT_NAME, 0x01] + UnitBytes(units) + seq(30 - 2 * |units|, _ => 0)
  }

  function NameSlotRun(units: seq<Unit>): (r: seq<Slot>)
    ensures |r| == NameSlots(|units|)
    ensures forall k :: 0 <= k < |r| ==> r[k][0] == ENT_NAME
  {
    if units == [] then []
    else
      var n := Min(15, |units|);
      [NameSlot(units[..n])] + NameSlotRun(units[n..])
  }

  /** Store a checksum in the File entry of a set. */
  function WithChecksum(ents: seq<Slot>, cs: nat): (r: seq<Slot>)
    requires |ents| >= 1 && cs < TWO16
    ensures |r| == |ents|
  {
    ents[0 := Splice(ents[0], 2, Le16(cs))]
  }

  /** The entry set before its checksum is stored. */
  function RawSet(units: seq<Unit>, attr: nat, first: nat, size: nat, flags: Byte): (ents: seq<Slot>)
    requires 1 <= |units| <= NAME_UNITS && attr < TWO16 && first < TWO32 && size < TWO64
    ensures |ents| == 2 + NameSlots(|units|) <= MAX_SET
  {
    [FileSlot(0, 1 + NameSlots(|units|), attr),
     StreamSlot(flags, |units|, NameHash(0, units), first, size)] + NameSlotRun(units)
  }

  function BuiltSet(units: seq<Unit>, attr: nat, first: nat, size: nat, flags: Byte): (ents: seq<Slot>)
    requires 1 <= |units| <= NAME_UNITS && attr < TWO16 && first < TWO32 && size < TWO64
    ensures |ents| == 2 + NameSlots(|units|) <= MAX_SET
  {
    var raw := RawSet(units, attr, first, size, flags);
    WithChecksum(raw, SetChecksum(raw))
  }

  lemma {:induction false} WithChecksumOk(ents: seq<Slot>)
    requires |ents| >= 1
    ensures
      var r := WithChecksum(ents, SetChecksum(ents));
      && Rd16(r[0], 2) == SetChecksum(r)
      && r[1..] == ents[1..]
      && forall i :: 0 <= i < 32 && i != 2 && i != 3 ==> r[0][i] == ents[0][i]
  {
    var cs := SetChecksum(ents);
    var r := WithChecksum(ents, cs);
    assert r[0][2..4] == Le16(cs);
    RdLe16(r[0], 2, cs);
    assert r[1..] == ents[1..];
    assert Flat(r) == r[0] + Flat(r[1..]) && Flat(ents) == ents[0] + Flat(ents[1..]);
    assert Flat(r)[..2] == r[0][..2] == ents[0][..2] == Flat(ents)[..2];
    assert Flat(r)[4..] == r[0][4..] + Flat(r[1..]);
    assert Flat(ents)[4..] == ents[0][4..] + Flat(ents[1..]);
    ChecksumSkipsField(Flat(r), Flat(ents));
  }

  /** Storing the checksum completes a set and does not disturb what it says. */
  lemma {:induction false} ChecksumCompletes(raw: seq<Slot>)
    requires SetShape(raw)
    ensures
      var r := WithChecksum(raw, SetChecksum(raw));
      SetOk(r) && EntryOf(r) == EntryOf(raw)
  {
    hide SetChecksum, PutAll, NameUnits;
    var r := WithChecksum(raw, SetChecksum(raw));
    WithChecksumOk(raw);
    assert r[1] == r[1..][0] == raw[1..][0] == raw[1];
    assert r[2..] == r[1..][1..] == raw[1..][1..] == raw[2..];
    forall k | 2 <= k < |r|
      ensures r[k][0] == ENT_NAME
    {
      assert r[k] == r[2..][k - 2] == raw[2..][k - 2];
    }
  }

  lemma {:induction false} UnitBytesAt(units: seq<Unit>, k: nat)
    requires k < |units|
    ensures UnitBytes(units)[2 * k..2 * k + 2] == Le16(units[k])
  {
    if k == 0 {
    } else {
      UnitBytesAt(units[1..], k - 1);
      var u := UnitBytes(units);
      assert u[2 * k..2 * k + 2] == u[2..][2 * (k - 1)..2 * (k - 1) + 2];
    }
  }

  lemma {:induction false} NameSlotUnits(units: seq<Unit>)
    requires |units| <= 15
    ensures SlotUnits(NameSlot(units))[..|units|] == units
  {
    var s := NameSlot(units);
    forall k | 0 <= k < |units|
      ensures Rd16(s, 2 + 2 * k) == units[k]
    {
      UnitBytesAt(units, k);
      assert s[2 + 2 * k..4 + 2 * k] == UnitBytes(units)[2 * k..2 * k + 2];
      RdLe16(s, 2 + 2 * k, units[k]);
    }
  }

  /** Units spread over File Name entries are read back unchanged. */
  lemma {:induction false} NameRunRoundTrip(units: seq<Unit>)
    ensures NameUnits(NameSlotRun(units), |units|) == units
    decreases |units|
  {
    if units != [] {
      var n := Min(15, |units|);
      var run := NameSlotRun(units);
      NameSlotUnits(units[..n]);
      NameRunRoundTrip(units[n..]);
      assert run[1..] == NameSlotRun(units[n..]);
      assert units[..n] + units[n..] == units;
    }
  }

  lemma {:induction false} FileSlotFields(cs: nat, secondaries: Byte, attr: nat)
    requires cs < TWO16 && attr < TWO16
    ensures FileSlot(cs, secondaries, attr)[0] == ENT_FILE
    ensures FileSlot(cs, secondaries, attr)[1] == secondaries
    ensures Rd16(FileSlot(cs, secondaries, attr), 4) == if attr != 0 then attr else ATTR_ARCHIVE
  {
    var s := FileSlot(cs, secondaries, attr);
    var a := if attr != 0 then attr else ATTR_ARCHIVE;
    assert s[4..6] == Le16(a);
    RdLe16(s, 4, a);
  }

  lemma {:induction false} StreamSlotFields(flags: Byte, nlen: Byte, hash: nat, first: nat, size: nat)
    requires hash < TWO16 && first < TWO32 && size < TWO64
    ensures
      var s := StreamSlot(flags, nlen, hash, first, size);
      s[0] == ENT_STREAM && s[1] == flags && s[3] == nlen
    ensures Rd32(StreamSlot(flags, nlen, hash, first, size), 20) == first
    ensures DataLength(StreamSlot(flags, nlen, hash, first, size)) == size
  {
    var s := StreamSlot(flags, nlen, hash, first, size);
    assert s[20..24] == Le32(first);
    RdLe32(s, 20, first);
    assert s[24..32] == Le64(size);
    RdLe64(s, 24, size);
  }

  lemma {:induction false} RawSetName(units: seq<Unit>, attr: nat, first: nat, size: nat, flags: Byte)
    requires 1 <= |units| <= NAME_UNITS && attr < TWO16 && first < TWO32 && size < TWO64
    ensures StoredName(RawSet(units, attr, first, size, flags)) == units
  {
    hide FileSlot, StreamSlot, NameHash;
    var raw := RawSet(units, attr, first, size, flags);
    StreamSlotFields(flags, |units|, NameHash(0, units), first, size);
    assert raw[1][3] == |units|;
    assert raw[2..] == NameSlotRun(units);
    NameRunRoundTrip(units);
  }

  lemma {:induction false} RawSetDecodes(units: seq<Unit>, attr: nat, first: nat, size: nat, flags: Byte)
    requires 1 <= |units| <= NAME_UNITS && attr < TWO16 && first < TWO32 && size < TWO64
    ensures
      var ents := RawSet(units, attr, first, size, flags);
      && SetShape(ents)
      && EntryOf(ents) == Entry(PutAll([], units), attr / 16 % 2 == 1, first, size, flags / 2 % 2 == 1)
  {
    hide FileSlot, StreamSlot, NameHash, PutAll, NameSlotRun, StoredName, Rd16, Rd32, DataLength;
    var file, stream := FileSlot(0, 1 + NameSlots(|units|), attr),
                        StreamSlot(flags, |units|, NameHash(0, units), first, size);
    var run := NameSlotRun(units);
    var raw := RawSet(units, attr, first, size, flags);
    FileSlotFields(0, 1 + NameSlots(|units|), attr);
    StreamSlotFields(flags, |units|, NameHash(0, units), first, size);
    RawSetName(units, attr, first, size, flags);
    assert raw[0] == file && raw[1] == stream && raw[2..] == run;
    forall k | 2 <= k < |raw|
      ensures raw[k][0] == ENT_NAME
    {
      assert raw[k] == run[k - 2];
    }
  }

  /** A built set is complete, carries its checksum, and decodes to what it was built from. */
  lemma {:induction false} BuiltSetDecodes(units: seq<Unit>, attr: nat, first: nat, size: nat, flags: Byte)
    requires 1 <= |units| <= NAME_UNITS && attr < TWO16 && first < TWO32 && size < TWO64
    ensures
      var ents := BuiltSet(units, attr, first, size, flags);
      && SetOk(ents)
      && EntryOf(ents) == Entry(PutAll([], units), attr / 16 % 2 == 1, first, size, flags / 2 % 2 == 1)
  {
    hide RawSet, SetChecksum, WithChecksum, EntryOf, SetShape, SetOk;
    RawSetDecodes(units, attr, first, size, flags);
    ChecksumCompletes(RawSet(units, attr, first, size, flags));
  }

  /** A well-formed UTF-8 name that fits 255 bytes survives being built into an entry set and read
      back, together with its kind, first cluster, length and allocation flag. */
  lemma {:induction false} NameSurvives(name: seq<Byte>, attr: nat, first: nat, size: nat, flags: Byte)
    requires WellFormed(name) && 1 <= |name| <= NAME_BYTES
    requires attr < TWO16 && first < TWO32 && size < TWO64
    ensures Decodable(name) && 1 <= |Decode(name)| <= NAME_UNITS
    ensures
      var ents := BuiltSet(Decode(name), attr, first, size, flags);
      SetOk(ents) && EntryOf(ents) == Entry(name, attr / 16 % 2 == 1, first, size, flags / 2 % 2 == 1)
  {
    NameRoundTrip(name);
    BuiltSetDecodes(Decode(name), attr, first, size, flags);
  }

  /** The set a directory's parent stores after the directory has grown to `size` bytes. */
  function WithSize(ents: seq<Slot>, size: nat): (r: seq<Slot>)
    requires |ents| >= 2 && size < TWO64
    ensures |r| == |ents|
  {
    var raw := ents[1 := Splice(Splice(ents[1], 8, Le64(size)), 24, Le64(size))];
    WithChecksum(raw, SetChecksum(raw))
  }

  /** Rewriting the length keeps the set complete, renews its checksum and changes nothing else. */
  lemma {:induction false} WithSizeDecodes(ents: seq<Slot>, size: nat)
    requires SetOk(ents) && size < TWO64
    ensures SetOk(WithSize(ents, size))
    ensures EntryOf(WithSize(ents, size)) == EntryOf(ents).(size := size)
  {
    hide SetChecksum, PutAll, NameUnits, WithChecksum;
    var s1: Slot := Splice(Splice(ents[1], 8, Le64(size)), 24, Le64(size));
    var raw := ents[1 := s1];
    assert raw[2..] == ents[2..];
    assert s1[24..32] == Le64(size);
    RdLe64(s1, 24, size);
    assert forall i :: 0 <= i < 8 || 16 <= i < 24 ==> s1[i] == ents[1][i];
    ChecksumCompletes(raw);
  }

  /** Clearing the in-use bit of an entry type. */
  function Retired(s: Slot): (r: Slot)
    ensures r[0] < 0x80
  {
    var t: nat := s[0];
    s[0 := t % 128]
  }

  lemma {:induction false} UnitBytesFirst(u: seq<Unit>)
    ensures u == [] ==> UnitBytes(u) == []
    ensures u != [] ==> UnitBytes(u) == Le16(u[0]) + UnitBytes(u[1..])
  {
  }

  /** Fill one File Name entry with up to 15 units from index start. */
  method BuildNameEntry(units: seq<Unit>, start: nat) returns (slot: Slot, ni: nat)
    requires start < |units|
    ensures ni == Min(start + 15, |units|)
    ensures slot == NameSlot(units[start..][..ni - start])
  {
    hide UnitBytes, Le16;
    var payload: seq<Byte> := [];
    var j := 0;
    ni := start;
    ghost var all := UnitBytes(units[start..Min(start + 15, |units|)]);
    assert payload + all == all;
    while j < 15 && ni < |units|
      invariant 0 <= j <= 15 && ni == start + j <= |units|
      invariant payload + UnitBytes(units[ni..Min(start + 15, |units|)])
             == UnitBytes(units[start..Min(start + 15, |units|)])
    {
      ghost var left := units[ni..Min(start + 15, |units|)];
      assert left[1..] == units[ni + 1..Min(start + 15, |units|)] && left[0] == units[ni];
      UnitBytesFirst(left);
      assert payload + (Le16(left[0]) + UnitBytes(left[1..])) == payload + Le16(left[0]) + UnitBytes(left[1..]);
      payload := payload + Le16(units[ni]);
      j, ni := j + 1, ni + 1;
    }
    assert units[start..ni] == units[start..][..ni - start];
    UnitBytesFirst(units[ni..ni]);
    assert payload + [] == payload;
    slot := [ENT_NAME, 0x01] + payload + seq(30 - |payload|, _ => 0);
  }

  /** The driver's set builder: an empty result is its error return. */
  method BuildSet(name: seq<Byte>, attr: nat, first: nat, size: nat, flags: Byte)
    returns (ents: seq<Slot>)
    requires Decodable(name)
    requires attr < TWO16 && first < TWO32 && size < TWO64
    ensures name == [] ==> ents == []
    ensures name != [] ==> ents == BuiltSet(StoredUnits(name), attr, first, size, flags)
  {
    hide FileSlot, StreamSlot, NameHash, NameSlot, SetChecksum, FirstUnit;
    var units := ToUnits(name);
    if |units| < 1 {
      return [];
    }
    var nn := (|units| + 14) / 15;
    ents := [FileSlot(0, 1 + nn, attr), StreamSlot(flags, |units|, NameHash(0, units), first, size)];
    var ni, k := 0, 0;
    while k < nn
      invariant 0 <= k <= nn && 0 <= ni <= |units|
      invariant nn - k == NameSlots(|units| - ni)
      invariant |ents| >= 2
      invariant ents + NameSlotRun(units[ni..]) ==
        [FileSlot(0, 1 + nn, attr), StreamSlot(flags, |units|, NameHash(0, units), first, size)] + NameSlotRun(units)
    {
      var slot, next := BuildNameEntry(units, ni);
      assert units[ni..][next - ni..] == units[next..];
      ents, ni, k := ents + [slot], next, k + 1;
    }
    assert units[ni..] == [] && ents + [] == ents;
    var cs := ComputeChecksum(ents);
    ents := WithChecksum(ents, cs);
  }
}
