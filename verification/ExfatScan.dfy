/** The directory scanner: a state machine over 32-byte entries, and what it reports on a directory
    made of complete entry sets, retired entries and foreign entries. */
module ExfatScan {
  import opened Bytes
  import opened ExfatNames
  import opened ExfatEntrySet

  /** Where an entry lives: its cluster and its index inside that cluster. */
  datatype Loc = Loc(clus: nat, idx: nat)
  datatype Cell = Cell(loc: Loc, slot: Slot)

  /** A reported entry set: its contents, its entry count and the places of the first 19 entries. */
  datatype Found = Found(entry: Entry, n: nat, locs: seq<Loc>)

  /** Entry-set assembly. Outside a set the assembly variables are dead. */
  datatype ScanState =
    | Idle
    | InSet(left: int, isDir: bool, first: nat, size: nat, contig: bool,
            nlen: nat, got: nat, name: seq<Byte>, n: nat, locs: seq<Loc>)
  {
    function Noted(loc: Loc): ScanState
      requires InSet?
    {
      this.(left := left - 1, n := n + 1, locs := if n < MAX_SET then locs + [loc] else locs)
    }
  }

  /** One entry with a non-zero type byte. */
  function Step(st: ScanState, c: Cell): (r: (ScanState, Option<Found>)) {
    var t := c.slot[0];
    if t == ENT_FILE then
      (InSet(c.slot[1], Rd16(c.slot, 4) / 16 % 2 == 1, 0, 0, false, 0, 0, [], 1, [c.loc]), None)
    else if st.Idle? then (st, None)
    else if t == ENT_STREAM then
      (st.Noted(c.loc).(contig := c.slot[1] / 2 % 2 == 1, nlen := c.slot[3],
                        first := Rd32(c.slot, 20), size := DataLength(c.slot)), None)
    else if t == ENT_NAME then
      var k := if st.got < st.nlen then Min(15, st.nlen - st.got) else 0;
      var s := st.Noted(c.loc).(name := PutAll(st.name, SlotUnits(c.slot)[..k]), got := st.got + k);
      if s.left <= 0 && s.got >= s.nlen then
        (Idle, Some(Found(Entry(s.name, s.isDir, s.first, s.size, s.contig), s.n, s.locs)))
      else (s, None)
    else if t >= 0x80 then (st.Noted(c.loc), None)
    else (st, None)
  }

  /** How a walk over cells ends: at the end-of-directory marker, or with the cells used up. */
  datatype End = Eod(loc: Loc) | Open(st: ScanState)

  /** Everything a walk reports, in order. */
  datatype Walk = Walk(events: seq<Found>, end: End)

  function Run(st: ScanState, cells: seq<Cell>): Walk
    decreases |cells|
  {
    if cells == [] then Walk([], Open(st))
    else if cells[0].slot[0] == 0 then Walk([], Eod(cells[0].loc))
    else
      var (s, f) := Step(st, cells[0]);
      var w := Run(s, cells[1..]);
      if f.Some? then w.(events := [f.value] + w.events) else w
  }

  /** A walk that stops at the first set with the wanted name. */
  datatype ScanResult = Hit(found: Found) | Miss(end: End)

  predicate Wanted(e: Entry, want: Option<seq<Byte>>) { want.Some? && NameEq(e.name, want.value) }

  function Scan(st: ScanState, cells: seq<Cell>, want: Option<seq<Byte>>): ScanResult
    decreases |cells|
  {
    if cells == [] then Miss(Open(st))
    else if cells[0].slot[0] == 0 then Miss(Eod(cells[0].loc))
    else
      var (s, f) := Step(st, cells[0]);
      if f.Some? && Wanted(f.value.entry, want) then Hit(f.value) else Scan(s, cells[1..], want)
  }

  lemma {:induction false} RunConcat(st: ScanState, a: seq<Cell>, b: seq<Cell>)
    ensures
      var w := Run(st, a);
      Run(st, a + b) ==
        if w.end.Eod? then w
        else var v := Run(w.end.st, b); Walk(w.events + v.events, v.end)
    decreases |a|
  {
    hide Step;
    if a == [] {
      assert a + b == b;
    } else {
      assert (a + b)[1..] == a[1..] + b;
      if a[0].slot[0] != 0 {
        RunConcat(Step(st, a[0]).0, a[1..], b);
      }
    }
  }

  function FirstWanted(events: seq<Found>, want: Option<seq<Byte>>): Option<Found> {
    if events == [] then None
    else if Wanted(events[0].entry, want) then Some(events[0])
    else FirstWanted(events[1..], want)
  }

  /** Stopping early reports the first wanted set of the full walk. */
  lemma {:induction false} ScanRun(st: ScanState, cells: seq<Cell>, want: Option<seq<Byte>>)
    ensures
      var w := Run(st, cells);
      var f := FirstWanted(w.events, want);
      Scan(st, cells, want) == if f.Some? then Hit(f.value) else Miss(w.end)
    decreases |cells|
  {
    hide Step, Wanted;
    if cells != [] && cells[0].slot[0] != 0 {
      ScanRun(Step(st, cells[0]).0, cells[1..], want);
    }
  }

  // ---- Directory contents --------------------------------------------------

  /** A live entry set, or entries every scan passes over: retired ones and foreign primaries. */
  datatype Item = Live(ents: seq<Slot>) | Dead(slots: seq<Slot>)

  function SlotsOf(it: Item): seq<Slot> {
    if it.Live? then it.ents else it.slots
  }

  predicate Inert(s: Slot) { s[0] != 0 && s[0] != ENT_FILE }

  predicate ItemOk(it: Item) {
    if it.Live? then SetShape(it.ents) else forall s <- it.slots :: Inert(s)
  }

  predicate ItemsOk(items: seq<Item>) { forall i :: 0 <= i < |items| ==> ItemOk(items[i]) }

  function AllSlots(items: seq<Item>): seq<Slot> {
    if items == [] then [] else SlotsOf(items[0]) + AllSlots(items[1..])
  }

  function SlotsOfCells(cells: seq<Cell>): (s: seq<Slot>)
    ensures |s| == |cells|
  {
    seq(|cells|, i requires 0 <= i < |cells| => cells[i].slot)
  }

  function LocsOf(cells: seq<Cell>): (s: seq<Loc>)
    ensures |s| == |cells|
  {
    seq(|cells|, i requires 0 <= i < |cells| => cells[i].loc)
  }

  predicate ItemMatches(it: Item, want: seq<Byte>)
    requires ItemOk(it)
  {
    it.Live? && NameEq(EntryOf(it.ents).name, want)
  }

  /** Index of the first live entry with the wanted name, |items| when there is none. */
  function Lookup(items: seq<Item>, want: seq<Byte>): (i: nat)
    requires ItemsOk(items)
    ensures i <= |items|
    ensures i < |items| ==> ItemMatches(items[i], want)
    ensures forall j :: 0 <= j < i ==> !ItemMatches(items[j], want)
  {
    if items == [] then 0
    else if ItemMatches(items[0], want) then 0
    else 1 + Lookup(items[1..], want)
  }

  /** What scanning the name entries of a set reports, given the state before them. */
  function NamesFound(st: ScanState, cells: seq<Cell>): Found
    requires st.InSet? && st.got <= st.nlen
  {
    Found(Entry(PutAll(st.name, NameUnits(SlotsOfCells(cells), st.nlen - st.got)),
                st.isDir, st.first, st.size, st.contig),
          st.n + |cells|, st.locs + LocsOf(cells))
  }

  /** The state between a set's stream entry and the end of its names. */
  predicate Naming(st: ScanState, left: nat) {
    && st.InSet? && st.left == left && st.got < st.nlen && NameSlots(st.nlen - st.got) == left
    && st.n == |st.locs| && st.n + left <= MAX_SET
  }

  lemma {:induction false} StepName(st: ScanState, cells: seq<Cell>)
    requires cells != [] && Naming(st, |cells|) && cells[0].slot[0] == ENT_NAME
    ensures
      var (s, f) := Step(st, cells[0]);
      if |cells| == 1 then s == Idle && f == Some(NamesFound(st, cells))
      else Naming(s, |cells| - 1) && f == None && NamesFound(s, cells[1..]) == NamesFound(st, cells)
  {
    hide PutAll, SlotUnits;
    var k := Min(15, st.nlen - st.got);
    var here, rest := SlotUnits(cells[0].slot)[..k], cells[1..];
    assert SlotsOfCells(cells)[1..] == SlotsOfCells(rest);
    assert LocsOf(cells) == [cells[0].loc] + LocsOf(rest);
    assert st.locs + LocsOf(cells) == st.locs + [cells[0].loc] + LocsOf(rest);
    PutAllConcat(st.name, here, NameUnits(SlotsOfCells(rest), st.nlen - st.got - k));
    if rest == [] {
      assert NameUnits(SlotsOfCells(cells), st.nlen - st.got) == here + [];
      assert here + [] == here;
      assert LocsOf(cells) == [cells[0].loc];
    }
  }

  /** The name entries of a set, whatever part of the name came before, report the set once. */
  lemma {:induction false} RunNames(st: ScanState, cells: seq<Cell>)
    requires cells != [] && Naming(st, |cells|)
    requires forall k :: 0 <= k < |cells| ==> cells[k].slot[0] == ENT_NAME
    ensures Run(st, cells) == Walk([NamesFound(st, cells)], Open(Idle))
    decreases |cells|
  {
    hide Step, NamesFound, Naming;
    StepName(st, cells);
    if |cells| > 1 {
      RunNames(Step(st, cells[0]).0, cells[1..]);
    }
  }

  /** A live set is reported exactly once, whatever state the scanner was in before it. */
  lemma {:induction false} RunLive(st: ScanState, cells: seq<Cell>)
    requires SetShape(SlotsOfCells(cells))
    ensures Run(st, cells) ==
      Walk([Found(EntryOf(SlotsOfCells(cells)), |cells|, LocsOf(cells))], Open(Idle))
  {
    hide PutAll, NameUnits;
    var ents := SlotsOfCells(cells);
    var s1 := Step(st, cells[0]).0;
    var s2 := Step(s1, cells[1]).0;
    var names := cells[1..][1..];
    assert ents[0] == cells[0].slot && ents[1] == cells[1].slot;
    assert SlotsOfCells(names) == ents[2..];
    assert LocsOf(cells) == [cells[0].loc, cells[1].loc] + LocsOf(names);
    assert forall k :: 0 <= k < |names| ==> names[k].slot == ents[k + 2];
    assert Naming(s2, |names|);
    RunNames(s2, names);
    assert s2.locs == [cells[0].loc] + [cells[1].loc] == [cells[0].loc, cells[1].loc];
    assert StoredName(ents) == NameUnits(SlotsOfCells(names), s2.nlen - s2.got);
    assert NamesFound(s2, names).entry == EntryOf(ents);
    assert NamesFound(s2, names) == Found(EntryOf(ents), |cells|, LocsOf(cells));
    assert Run(s1, cells[1..]) == Run(s2, names);
    assert Run(st, cells) == Run(s1, cells[1..]);
  }

  lemma {:induction false} RunDead(cells: seq<Cell>)
    requires forall i :: 0 <= i < |cells| ==> Inert(cells[i].slot)
    ensures Run(Idle, cells) == Walk([], Open(Idle))
    decreases |cells|
  {
    if cells != [] {
      RunDead(cells[1..]);
    }
  }

  lemma {:induction false} AllSlotsConcat(a: seq<Item>, b: seq<Item>)
    ensures AllSlots(a + b) == AllSlots(a) + AllSlots(b)
  {
    if a == [] {
      assert a + b == b;
    } else {
      assert (a + b)[1..] == a[1..] + b;
      AllSlotsConcat(a[1..], b);
    }
  }

  /** Where the entries of item i start in the directory. */
  function ItemStart(items: seq<Item>, i: nat): nat
    requires i <= |items|
  {
    |AllSlots(items[..i])|
  }

  lemma {:induction false} ItemSpan(items: seq<Item>, i: nat)
    requires i < |items|
    ensures ItemStart(items, i) + |SlotsOf(items[i])| == ItemStart(items, i + 1) <= |AllSlots(items)|
    ensures AllSlots(items)[ItemStart(items, i)..ItemStart(items, i + 1)] == SlotsOf(items[i])
  {
    assert items == items[..i] + ([items[i]] + items[i + 1..]);
    assert items[..i + 1] == items[..i] + [items[i]];
    AllSlotsConcat(items[..i], [items[i]] + items[i + 1..]);
    AllSlotsConcat(items[..i], [items[i]]);
    assert AllSlots([items[i]]) == SlotsOf(items[i]);
  }

  /** What a walk over items reports, given where their entries live. */
  function Founds(items: seq<Item>, locs: seq<Loc>): seq<Found>
    requires ItemsOk(items) && |locs| == |AllSlots(items)|
  {
    if items == [] then []
    else
      var n := |SlotsOf(items[0])|;
      (if items[0].Live? then [Found(EntryOf(items[0].ents), n, locs[..n])] else [])
      + Founds(items[1..], locs[n..])
  }

  lemma {:induction false} FoundsFirst(items: seq<Item>, locs: seq<Loc>)
    requires ItemsOk(items) && |locs| == |AllSlots(items)| && items != []
    ensures
      var n := |SlotsOf(items[0])|;
      var f, rest := Founds(items, locs), Founds(items[1..], locs[n..]);
      if items[0].Live? then f != [] && f[0] == Found(EntryOf(items[0].ents), n, locs[..n]) && f[1..] == rest
      else f == rest
  {
  }

  lemma {:induction false} RunItem(it: Item, cells: seq<Cell>)
    requires ItemOk(it) && SlotsOfCells(cells) == SlotsOf(it)
    ensures Run(Idle, cells) ==
      Walk(if it.Live? then [Found(EntryOf(it.ents), |it.ents|, LocsOf(cells))] else [], Open(Idle))
  {
    hide Run, EntryOf, SetShape;
    if it.Live? {
      RunLive(Idle, cells);
    } else {
      forall i | 0 <= i < |cells|
        ensures Inert(cells[i].slot)
      {
        assert cells[i].slot == it.slots[i];
      }
      RunDead(cells);
    }
  }

  /** Walking a directory's items reports each live set once, in order, with the places of its
      entries, and ends outside any set. */
  lemma {:induction false} RunItems(items: seq<Item>, cells: seq<Cell>)
    requires ItemsOk(items) && SlotsOfCells(cells) == AllSlots(items)
    ensures Run(Idle, cells) == Walk(Founds(items, LocsOf(cells)), Open(Idle))
  {
    hide ItemOk, Inert, EntryOf;
    if items == [] {
      assert cells == [];
    } else {
      var n := |SlotsOf(items[0])|;
      var a, b := cells[..n], cells[n..];
      assert cells == a + b;
      assert AllSlots(items)[..n] == SlotsOf(items[0]) && AllSlots(items)[n..] == AllSlots(items[1..]);
      assert SlotsOfCells(a) == SlotsOfCells(cells)[..n];
      assert SlotsOfCells(b) == SlotsOfCells(cells)[n..];
      assert LocsOf(a) == LocsOf(cells)[..n] && LocsOf(b) == LocsOf(cells)[n..];
      RunConcat(Idle, a, b);
      RunItem(items[0], a);
      RunItems(items[1..], b);
    }
  }

  lemma {:induction false} FirstWantedLookup(items: seq<Item>, locs: seq<Loc>, want: seq<Byte>)
    requires ItemsOk(items) && |locs| == |AllSlots(items)|
    ensures
      var i := Lookup(items, want);
      var f := FirstWanted(Founds(items, locs), Some(want));
      if i == |items| then f == None
      else
        && ItemStart(items, i) + |items[i].ents| <= |locs|
        && f == Some(Found(EntryOf(items[i].ents), |items[i].ents|,
                           locs[ItemStart(items, i)..ItemStart(items, i) + |items[i].ents|]))
  {
    hide EntryOf, SetShape, NameEq, Founds, AllSlots;
    if items == [] {
      assert Founds(items, locs) == [] by { FoundsNone(locs); }
    } else {
      var n := |SlotsOf(items[0])|;
      var i := Lookup(items, want);
      FoundsFirst(items, locs);
      ItemStartShift(items, i);
      AllSlotsFirst(items);
      if i == 0 {
        assert locs[0..n] == locs[..n];
      } else {
        FirstWantedLookup(items[1..], locs[n..], want);
        if i < |items| {
          ItemSpan(items, i);
          var j := ItemStart(items[1..], i - 1);
          assert locs[n..][j..j + |items[i].ents|] == locs[n + j..n + j + |items[i].ents|];
        }
      }
    }
  }

  lemma {:induction false} FoundsNone(locs: seq<Loc>)
    requires |locs| == |AllSlots([])|
    ensures Founds([], locs) == []
  {
  }

  lemma {:induction false} AllSlotsFirst(items: seq<Item>)
    requires items != []
    ensures AllSlots(items) == SlotsOf(items[0]) + AllSlots(items[1..])
  {
  }

  lemma {:induction false} ItemStartShift(items: seq<Item>, i: nat)
    requires items != [] && i <= |items|
    ensures ItemStart(items, i) == if i == 0 then 0 else |SlotsOf(items[0])| + ItemStart(items[1..], i - 1)
  {
    if i == 0 {
      assert items[..0] == [];
    } else {
      assert items[..i][1..] == items[1..][..i - 1];
    }
  }

  /** The names, kinds and sizes a directory listing shows: sets with an empty name are skipped. */
  function Shown(events: seq<Found>): seq<Entry> {
    if events == [] then []
    else (if events[0].entry.name != [] then [events[0].entry] else []) + Shown(events[1..])
  }

  function Listing(items: seq<Item>): seq<Entry>
    requires ItemsOk(items)
  {
    if items == [] then []
    else
      (if items[0].Live? && EntryOf(items[0].ents).name != [] then [EntryOf(items[0].ents)] else [])
      + Listing(items[1..])
  }

  lemma {:induction false} ShownFounds(items: seq<Item>, locs: seq<Loc>)
    requires ItemsOk(items) && |locs| == |AllSlots(items)|
    ensures Shown(Founds(items, locs)) == Listing(items)
  {
    hide EntryOf, SetShape;
    if items != [] {
      FoundsFirst(items, locs);
      ShownFounds(items[1..], locs[|SlotsOf(items[0])|..]);
    }
  }

  lemma {:induction false} ListingFirst(items: seq<Item>)
    requires ItemsOk(items)
    ensures items == [] ==> Listing(items) == []
    ensures items != [] ==>
      ItemsOk([items[0]]) && ItemsOk(items[1..]) && Listing(items) == Listing([items[0]]) + Listing(items[1..])
  {
    hide EntryOf, SetShape;
    if items != [] {
      var one := [items[0]];
      assert one[1..] == [] && Listing(one[1..]) == [];
      assert Listing(one) == Listing(one) + [];
    }
  }

  lemma {:induction false} ItemsAppend(items: seq<Item>, it: Item)
    requires ItemsOk(items) && ItemOk(it)
    ensures ItemsOk(items + [it]) && ItemsOk([it])
  {
    hide ItemOk;
  }

  lemma {:induction false} ListingAppend(items: seq<Item>, it: Item)
    requires ItemsOk(items) && ItemOk(it)
    ensures ItemsOk(items + [it])
    ensures Listing(items + [it]) == Listing(items) + Listing([it])
  {
    hide EntryOf, ItemOk, ItemsOk, Listing;
    ItemsAppend(items, it);
    ListingFirst(items);
    if items == [] {
      assert items + [it] == [it];
    } else {
      ListingFirst(items + [it]);
      assert (items + [it])[1..] == items[1..] + [it] && (items + [it])[0] == items[0];
      ListingAppend(items[1..], it);
    }
  }
}
