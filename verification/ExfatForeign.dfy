/** Entry sets that other implementations write: with entries of further types among the names, or with more
    or fewer names than the length asks for. */
module ExfatForeign {
  import opened Bytes
  import opened ExfatNames
  import opened ExfatEntrySet
  import opened ExfatScan

  /** A File entry, the number of entries it announces, the Stream entry first among them. */
  predicate ForeignSet(s: seq<Slot>) {
    && 2 <= |s| && s[0][0] == 0x85 && s[0][1] == |s| - 1 && s[1][0] == 0xC0
    && forall k :: 2 <= k < |s| ==> s[k][0] >= 0x80 && s[k][0] != 0x85 && s[k][0] != 0xC0
  }

  /** Its File Name entries. */
  function Names(s: seq<Slot>): (r: seq<Slot>)
    ensures |r| <= |s|
  {
    if s == [] then [] else Names(s[..|s| - 1]) + if s[|s| - 1][0] == 0xC1 then [s[|s| - 1]] else []
  }

  /** What a scanner holds behind the first entries of a set: how many are missing, the fields of the Stream
      entry, and the units taken from the names so far. */
  predicate Reading(st: ScanState, s: seq<Slot>, k: nat, locs: seq<Loc>)
    requires 2 <= k <= |s| == |locs|
  {
    var names := Names(s[2..k]);
    && st.InSet? && st.left == |s| - k && st.n == k && st.nlen == s[1][3]
    && st.isDir == Directory(s[0]) && st.first == Rd32(s[1], 20) && st.size == Rd64(s[1], 24)
    && st.contig == Contiguous(s[1])
    && st.got == Min(15 * |names|, s[1][3]) && st.name == PutAll([], NameUnits(names, s[1][3]))
    && st.locs == locs[..Min(k, MAX_SET)]
  }

  /** Bit 4 of the attributes. */
  predicate Directory(file: Slot) {
    var a: nat := file[4];
    a % 32 >= 16
  }

  /** Bit 1 of the flags. */
  predicate Contiguous(stream: Slot) {
    var f: nat := stream[1];
    f % 4 >= 2
  }

  lemma {:induction false} NameUnitsSize(slots: seq<Slot>, n: nat)
    ensures |NameUnits(slots, n)| == Min(15 * |slots|, n)
  {
    if slots != [] {
      NameUnitsSize(slots[1..], n - Min(15, n));
    }
  }

  lemma {:induction false} NameUnitsMore(slots: seq<Slot>, x: Slot, n: nat)
    ensures NameUnits(slots + [x], n) == NameUnits(slots, n) + SlotUnits(x)[..Min(15, n - Min(15 * |slots|, n))]
  {
    var m := n - Min(15, n);
    if slots == [] {
      var one: seq<Slot> := slots + [x];
      assert one[1..] == [] && one[0] == x;
    } else {
      assert (slots + [x])[1..] == slots[1..] + [x];
      NameUnitsMore(slots[1..], x, m);
    }
  }

  /** The state after the Stream entry. */
  lemma {:induction false} ReadingStarts(st: ScanState, cells: seq<Cell>)
    requires ForeignSet(SlotsOfCells(cells))
    ensures
      var (a, f) := Step(st, cells[0]);
      var (b, g) := Step(a, cells[1]);
      f == None && g == None && Reading(b, SlotsOfCells(cells), 2, LocsOf(cells))
  {
    hide PutAll, Rd32, Rd64;
    var s := SlotsOfCells(cells);
    assert s[2..2] == [];
    assert PutAll([], NameUnits([], s[1][3])) == [] by {
      PutAllNothing([]);
    }
    var a: nat, f: nat := s[0][4], s[1][1];
    var a1: nat := s[0][5];
    assert (a + 256 * a1) / 16 % 2 == 1 <==> a % 32 >= 16;
    assert f / 2 % 2 == 1 <==> f % 4 >= 2;
  }

  lemma {:induction false} NamesMore(s: seq<Slot>, k: nat)
    requires 2 <= k < |s|
    ensures Names(s[2..k + 1]) == Names(s[2..k]) + if s[k][0] == 0xC1 then [s[k]] else []
  {
    var t := s[2..k + 1];
    assert t[..|t| - 1] == s[2..k] && t[|t| - 1] == s[k];
  }

  /** The last entry is a name, and the names are long enough. */
  predicate Reported(s: seq<Slot>)
    requires ForeignSet(s)
  {
    s[|s| - 1][0] == 0xC1 && 15 * |Names(s[2..])| >= s[1][3]
  }

  /** What the set says. */
  function ForeignEntry(s: seq<Slot>): Entry
    requires ForeignSet(s)
  {
    Entry(PutAll([], NameUnits(Names(s[2..]), s[1][3])), Directory(s[0]), Rd32(s[1], 20), Rd64(s[1], 24),
      Contiguous(s[1]))
  }

  lemma {:induction false} LocsMore(locs: seq<Loc>, k: nat)
    requires k < |locs|
    ensures locs[..Min(k + 1, MAX_SET)] == if k < MAX_SET then locs[..Min(k, MAX_SET)] + [locs[k]]
      else locs[..Min(k, MAX_SET)]
  {
  }

  /** One more entry that is no name. */
  lemma {:induction false} ReadingOther(st: ScanState, cells: seq<Cell>, k: nat)
    requires ForeignSet(SlotsOfCells(cells)) && 2 <= k < |cells| && cells[k].slot[0] != 0xC1
    requires Reading(st, SlotsOfCells(cells), k, LocsOf(cells))
    ensures Step(st, cells[k]).1 == None
      && Reading(Step(st, cells[k]).0, SlotsOfCells(cells), k + 1, LocsOf(cells))
  {
    hide PutAll, Rd16, Rd32, Rd64, SlotUnits, Names, NameUnits, Directory, Contiguous;
    var s := SlotsOfCells(cells);
    NamesMore(s, k);
    LocsMore(LocsOf(cells), k);
    assert s[k] == cells[k].slot && Names(s[2..k]) + [] == Names(s[2..k]);
  }

  /** One more name. */
  lemma {:induction false} ReadingName(st: ScanState, cells: seq<Cell>, k: nat)
    requires ForeignSet(SlotsOfCells(cells)) && 2 <= k < |cells| && cells[k].slot[0] == 0xC1
    requires Reading(st, SlotsOfCells(cells), k, LocsOf(cells))
    ensures
      var s := SlotsOfCells(cells);
      var (a, f) := Step(st, cells[k]);
      if k + 1 == |cells| && Reported(s) then
        a == Idle && f == Some(Found(ForeignEntry(s), |s|, LocsOf(cells)[..Min(|s|, MAX_SET)]))
      else f == None && Reading(a, s, k + 1, LocsOf(cells))
  {
    hide PutAll, Rd16, Rd32, Rd64, SlotUnits, Names, NameUnits, Directory, Contiguous;
    var s := SlotsOfCells(cells);
    var names := Names(s[2..k]);
    var n: nat := s[1][3];
    NamesMore(s, k);
    LocsMore(LocsOf(cells), k);
    assert s[k] == cells[k].slot;
    NameUnitsMore(names, s[k], n);
    var more := SlotUnits(s[k])[..Min(15, n - st.got)];
    PutAllConcat([], NameUnits(names, n), more);
    assert PutAll(st.name, more) == PutAll([], NameUnits(Names(s[2..k + 1]), n));
    assert k + 1 == |s| ==> s[2..k + 1] == s[2..];
  }

  lemma {:induction false} ReadingMore(st: ScanState, cells: seq<Cell>, k: nat)
    requires ForeignSet(SlotsOfCells(cells)) && 2 <= k < |cells|
    requires Reading(st, SlotsOfCells(cells), k, LocsOf(cells))
    ensures
      var s := SlotsOfCells(cells);
      var (a, f) := Step(st, cells[k]);
      if k + 1 == |cells| && Reported(s) then
        a == Idle && f == Some(Found(ForeignEntry(s), |s|, LocsOf(cells)[..Min(|s|, MAX_SET)]))
      else f == None && Reading(a, s, k + 1, LocsOf(cells))
  {
    hide Step, Reading, ForeignEntry;
    if cells[k].slot[0] == 0xC1 {
      ReadingName(st, cells, k);
    } else {
      ReadingOther(st, cells, k);
    }
  }

  lemma {:induction false} ReadingRest(st: ScanState, cells: seq<Cell>, k: nat)
    requires ForeignSet(SlotsOfCells(cells)) && 2 <= k < |cells|
    requires Reading(st, SlotsOfCells(cells), k, LocsOf(cells))
    ensures
      var s, w := SlotsOfCells(cells), Run(st, cells[k..]);
      if Reported(s) then
        w == Walk([Found(ForeignEntry(s), |s|, LocsOf(cells)[..Min(|s|, MAX_SET)])], Open(Idle))
      else w.events == [] && w.end.Open? && w.end.st.InSet?
    decreases |cells| - k
  {
    hide Step, ForeignEntry, Reported;
    ReadingMore(st, cells, k);
    var rest := cells[k..];
    assert rest[0] == cells[k] && rest[1..] == cells[k + 1..];
    assert SlotsOfCells(cells)[k][0] >= 0x80;
    var a := Step(st, cells[k]).0;
    if k + 1 < |cells| {
      ReadingRest(a, cells, k + 1);
    } else {
      assert Run(a, cells[k + 1..]) == Walk([], Open(a));
    }
  }

  /** A scanner reports such a set, with its name cut to the length the Stream entry gives, if and only if the
      last of its entries is a name and the names are long enough. Otherwise it passes over the set and
      stays inside it. */
  lemma {:induction false} ForeignExact(st: ScanState, cells: seq<Cell>)
    requires ForeignSet(SlotsOfCells(cells))
    ensures
      var s, w := SlotsOfCells(cells), Run(st, cells);
      if Reported(s) then
        w == Walk([Found(ForeignEntry(s), |s|, LocsOf(cells)[..Min(|s|, MAX_SET)])], Open(Idle))
      else w.events == [] && w.end.Open? && w.end.st.InSet?
  {
    hide Step, ForeignEntry;
    var s := SlotsOfCells(cells);
    ReadingStarts(st, cells);
    var a := Step(st, cells[0]).0;
    var b := Step(a, cells[1]).0;
    assert cells[0].slot == s[0] && cells[1].slot == s[1];
    assert cells[1..][0] == cells[1] && cells[1..][1..] == cells[2..];
    assert Run(st, cells) == Run(a, cells[1..]) == Run(b, cells[2..]);
    if |s| == 2 {
      assert cells[2..] == [];
    } else {
      ReadingRest(b, cells, 2);
    }
  }

  /** A set the specification allows and the driver does not see: a vendor entry behind the name. */
  lemma {:induction false} VendorHidden(file: Slot, stream: Slot, name: Slot, vendor: Slot, locs: seq<Loc>)
    requires |locs| == 4 && file[0] == 0x85 && file[1] == 3 && stream[0] == 0xC0 && name[0] == 0xC1 && vendor[0] == 0xE0
    ensures
      var cells := [Cell(locs[0], file), Cell(locs[1], stream), Cell(locs[2], name), Cell(locs[3], vendor)];
      Run(Idle, cells).events == []
  {
    var cells := [Cell(locs[0], file), Cell(locs[1], stream), Cell(locs[2], name), Cell(locs[3], vendor)];
    assert SlotsOfCells(cells) == [file, stream, name, vendor];
    ForeignExact(Idle, cells);
  }
}
