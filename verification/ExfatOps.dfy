/** What the driver's operations rest on: what scans report, and how the tree changes. */
module ExfatOps {
  import opened Arith
  import opened Bytes
  import opened ExfatNames
  import opened ExfatEntrySet
  import opened ExfatScan
  import opened ExfatSpace
  import opened ExfatHeap
  import opened ExfatTree
  import opened ExfatLayout
  import opened ExfatEdit
  import opened ExfatGrow
  import opened ExfatAppend

  /** What a scan for a name reports: the first entry with that name, and the places of its set. */
  ghost predicate Reports(items: seq<Item>, dir: Dir, cells: seq<Cell>, want: Name, r: ScanResult) {
    var i := Find(dir, want);
    && |items| == |dir|
    && if i == |dir| then r.Miss?
       else
         && dir[i].Some? && items[i].Live? && SetOk(items[i].ents)
         && ItemStart(items, i) + |items[i].ents| <= |cells|
         && r == Hit(Found(dir[i].value, |items[i].ents|,
                           LocsOf(cells)[ItemStart(items, i)..ItemStart(items, i) + |items[i].ents|]))
  }

  lemma {:induction false} ScanReports(heap: Heap, chain: seq<nat>, items: seq<Item>, dir: Dir, want: Name)
    requires DirOk(heap, chain, items, dir)
    ensures Reports(items, dir, DirCells(heap, chain), want, Scan(Idle, DirCells(heap, chain), Some(want)))
  {
    hide Scan, EntryOf, NameEq, DirHolds, SetOk, LocsOf, ItemOk;
    DirLookup(heap, chain, items, want);
    FindLookup(items, dir, want);
    LiveAt(items, dir, Find(dir, want));
    hide Reads, Checked;
  }

  lemma {:induction false} ScanMeans(geo: Geo, d: Disk, t: Tree, lay: Layout, k: nat, want: Name)
    requires Inv(geo, d, t, lay) && k in t.dirs
    ensures k in t.own && InHeap(d.heap, t.own[k].chain) && k in lay
    ensures
      var cells := DirCells(d.heap, t.own[k].chain);
      Reports(lay[k], t.dirs[k], cells, want, Scan(Idle, cells, Some(want)))
  {
    DirFacts(geo, d, t, lay, k);
    ScanReports(d.heap, t.own[k].chain, lay[k], t.dirs[k], want);
  }

  lemma {:induction false} LiveAt(items: seq<Item>, dir: Dir, i: nat)
    requires Reads(items, dir) && Checked(items) && i <= |dir|
    ensures |items| == |dir|
    ensures i < |dir| && dir[i].Some? ==>
      items[i].Live? && SetOk(items[i].ents) && EntryOf(items[i].ents) == dir[i].value
  {
  }

  /** A reported set can be edited in place. */
  lemma {:induction false} HitEditable(geo: Geo, d: Disk, t: Tree, lay: Layout, k: nat, want: Name)
    requires Inv(geo, d, t, lay) && k in t.dirs && Find(t.dirs[k], want) < |t.dirs[k]|
    ensures k in t.own && k in lay && InHeap(d.heap, t.own[k].chain)
    ensures
      var cells, i := DirCells(d.heap, t.own[k].chain), Find(t.dirs[k], want);
      var r := Scan(Idle, cells, Some(want));
      && EntryAt(t, k, i) && r.Hit? && r.found.entry == EntAt(t, k, i)
      && PlacedAt(cells, lay[k], i, r.found.n, r.found.locs)
      && Editable(geo, d.heap, t.own[k].chain, lay[k], i, r.found.n, r.found.locs)
  {
    DirFacts(geo, d, t, lay, k);
    ScanMeans(geo, d, t, lay, k, want);
    hide Inv, Scan, Find, SetOk, DirHolds, Reads, Checked, LocsOf, DirCells;
  }

  lemma {:induction false} FindMisses(geo: Geo, d: Disk, t: Tree, lay: Layout, k: nat, want: Name)
    requires Inv(geo, d, t, lay) && k in t.dirs && Find(t.dirs[k], want) == |t.dirs[k]|
    ensures k in t.own && InHeap(d.heap, t.own[k].chain)
    ensures Scan(Idle, DirCells(d.heap, t.own[k].chain), Some(want)).Miss?
  {
    ScanMeans(geo, d, t, lay, k, want);
    hide Inv, Scan, Find, SetOk, LocsOf, DirCells;
  }

  /** The root as the driver refers to it. */
  lemma {:induction false} RefToTop(geo: Geo, d: Disk, t: Tree, lay: Layout)
    requires Inv(geo, d, t, lay)
    ensures RefTo(geo, d.heap, t, lay, DirRef(geo.root, 0, true, 0, []))
  {
    hide SpaceOk, EntriesOk, LayoutOk, PlacedAt;
    RefToRootIntro(geo, d.heap, t, lay, DirRef(geo.root, 0, true, 0, []));
  }

  /** A directory found in its parent, as the driver refers to it. */
  lemma {:induction false} RefToHit(geo: Geo, d: Disk, t: Tree, lay: Layout, k: nat, want: Name, n: nat, locs: seq<Loc>)
    requires Inv(geo, d, t, lay) && k in t.dirs && Find(t.dirs[k], want) < |t.dirs[k]|
    requires k in t.own && k in lay && InHeap(d.heap, t.own[k].chain)
    requires PlacedAt(DirCells(d.heap, t.own[k].chain), lay[k], Find(t.dirs[k], want), n, locs)
    requires EntAt(t, k, Find(t.dirs[k], want)).isDir
    ensures
      var e := EntAt(t, k, Find(t.dirs[k], want));
      RefTo(geo, d.heap, t, lay, DirRef(e.first, e.size % TWO32, false, n, locs))
  {
    hide SpaceOk, LayoutOk, PlacedAt, Find, DirCells, RefsOk;
    var i := Find(t.dirs[k], want);
    InvRefs(geo, d, t, lay);
    hide Inv;
    ChildRef(geo, t, k, i);
    var e := EntAt(t, k, i);
    RefToIntro(geo, d.heap, t, lay, DirRef(e.first, e.size % TWO32, false, n, locs), k, i);
  }

  lemma {:induction false} InvRefs(geo: Geo, d: Disk, t: Tree, lay: Layout)
    requires Inv(geo, d, t, lay)
    ensures RefsOk(geo, t)
  {
  }

  lemma {:induction false} RefToIntro(geo: Geo, heap: Heap, t: Tree, lay: Layout, dr: DirRef, k: nat, i: nat)
    requires dr.first in t.dirs && !dr.isRoot && dr.first != geo.root && dr.first in t.refs
      && t.refs[dr.first] == (k, i)
    requires EntryAt(t, k, i) && dr.allocBytes == EntAt(t, k, i).size
    requires k in t.own && k in lay && InHeap(heap, t.own[k].chain)
    requires PlacedAt(DirCells(heap, t.own[k].chain), lay[k], i, dr.n, dr.locs)
    ensures RefTo(geo, heap, t, lay, dr)
  {
    hide PlacedAt, DirCells;
  }

  lemma {:induction false} ChildRef(geo: Geo, t: Tree, k: nat, i: nat)
    requires RefsOk(geo, t) && EntryAt(t, k, i) && EntAt(t, k, i).isDir
    ensures
      var e := EntAt(t, k, i);
      && e.first in t.dirs && e.first in t.refs && t.refs[e.first] == (k, i) && e.first != geo.root
      && e.size < TWO32
  {
    assert EntryOk(geo, t, k, i);
    assert RefOk(geo, t, EntAt(t, k, i).first);
  }

  /** A set has at least two entries. */
  lemma {:induction false} EditableMany(geo: Geo, heap: Heap, chain: seq<nat>, items: seq<Item>, i: nat, n: nat,
      locs: seq<Loc>)
    requires Editable(geo, heap, chain, items, i, n, locs)
    ensures n >= 2
  {
    EditableSet(geo, heap, chain, items, i, n, locs);
    hide Editable;
  }

  /** A directory whose entries end before its chain does: the marker that ends them is there. */
  predicate HasEnd(geo: Geo, t: Tree, lay: Layout, d: nat) {
    d in t.own && d in lay && |AllSlots(lay[d])| < |t.own[d].chain| * geo.Slots()
  }

  /** A full walk meets an end marker exactly when the entries end before the chain does. */
  lemma {:induction false} EndExact(geo: Geo, d: Disk, t: Tree, lay: Layout, k: nat)
    requires Inv(geo, d, t, lay) && k in t.dirs
    ensures k in t.own && k in lay && InHeap(d.heap, t.own[k].chain)
    ensures |AllSlots(lay[k])| <= |t.own[k].chain| * geo.Slots()
    ensures
      var r := Scan(Idle, DirCells(d.heap, t.own[k].chain), None);
      r.Miss? && (r.end.Eod? <==> HasEnd(geo, t, lay, k))
        && (!r.end.Eod? <==> |AllSlots(lay[k])| == |t.own[k].chain| * geo.Slots())
  {
    hide Inv, Scan, Reads, Checked, DirHolds, DirCells, AllSlots, PathOf;
    var ci := EodCursor(geo, d, t, lay, k);
    if HasEnd(geo, t, lay, k) || |AllSlots(lay[k])| > |t.own[k].chain| * geo.Slots() {
      DirFacts(geo, d, t, lay, k);
      HoldsSize(d.heap, t.own[k].chain, lay[k]);
      DirCellsSize(d.heap, t.own[k].chain, geo.Slots());
    }
    var r := Scan(Idle, DirCells(d.heap, t.own[k].chain), None);
    if r.end.Eod? {
      CursorBelow(t.own[k].chain, geo.Slots(), r.end.loc, ci, |AllSlots(lay[k])|);
    }
  }

  lemma {:induction false} CursorBelow(chain: seq<nat>, k: nat, l: Loc, ci: nat, pos: nat)
    requires CursorAt(chain, k, l, ci, pos)
    ensures pos < |chain| * k
  {
    MulAtLeastMul(ci + 1, |chain|, k);
    assert (ci + 1) * k == ci * k + k;
  }

  /** Where a full walk meets the end marker, as a cursor. */
  lemma {:induction false} EodCursor(geo: Geo, d: Disk, t: Tree, lay: Layout, k: nat) returns (ci: nat)
    requires Inv(geo, d, t, lay) && k in t.dirs
    ensures k in t.own && k in lay && InHeap(d.heap, t.own[k].chain)
    ensures
      var r := Scan(Idle, DirCells(d.heap, t.own[k].chain), None);
      && r.Miss?
      && (r.end.Eod? ==> CursorAt(t.own[k].chain, geo.Slots(), r.end.loc, ci, |AllSlots(lay[k])|))
      && (!r.end.Eod? ==> |AllSlots(lay[k])| == |t.own[k].chain| * geo.Slots())
  {
    hide Inv, Scan, Reads, Checked, DirHolds, DirCells, AllSlots, PathOf;
    DirFacts(geo, d, t, lay, k);
    SlotsInGeo(geo, d, t, lay);
    ci := EodPlace(d.heap, t.own[k].chain, lay[k], geo.Slots());
  }

  lemma {:induction false} EodPlace(heap: Heap, chain: seq<nat>, items: seq<Item>, k: nat) returns (ci: nat)
    requires InHeap(heap, chain) && Covers(heap, chain, k) && k > 0 && DirHolds(heap, chain, items)
    ensures
      var r := Scan(Idle, DirCells(heap, chain), None);
      && r.Miss?
      && (r.end.Eod? ==> CursorAt(chain, k, r.end.loc, ci, |AllSlots(items)|))
      && (!r.end.Eod? ==> |AllSlots(items)| == |chain| * k)
  {
    hide Scan, DirCells, ClusterCells, AllSlots, Covers, DirHolds;
    DirWalk(heap, chain, items);
    DirCellsSize(heap, chain, k);
    HoldsSize(heap, chain, items);
    var n := |AllSlots(items)|;
    var j;
    ci, j := RowOf(n, k, |chain|);
    if n < |DirCells(heap, chain)| {
      EodCell(heap, chain, k, ci, j, n);
    }
  }

  lemma {:induction false} HoldsSize(heap: Heap, chain: seq<nat>, items: seq<Item>)
    requires InHeap(heap, chain) && DirHolds(heap, chain, items)
    ensures |AllSlots(items)| <= |DirCells(heap, chain)|
  {
    hide DirCells, AllSlots;
  }

  lemma {:induction false} EodCell(heap: Heap, chain: seq<nat>, k: nat, ci: nat, j: nat, n: nat)
    requires InHeap(heap, chain) && Covers(heap, chain, k) && ci < |chain| && j < k && ci * k + j == n
    ensures n < |DirCells(heap, chain)| && CursorAt(chain, k, DirCells(heap, chain)[n].loc, ci, n)
  {
    hide DirCells, ClusterCells;
    DirCellAt(heap, chain, k, ci, j);
  }

  lemma {:induction false} SlotsInGeo(geo: Geo, d: Disk, t: Tree, lay: Layout)
    requires Inv(geo, d, t, lay)
    ensures geo.Slots() > 0
  {
  }

  // ---- A new entry takes effect ------------------------------------------------------

  lemma {:induction false} ReadsPlus(items: seq<Item>, dir: Dir, ents: seq<Slot>, e: Entry)
    requires Reads(items, dir) && Checked(items) && SetOk(ents) && EntryOf(ents) == e
    ensures Reads(items + [Live(ents)], dir + [Some(e)]) && Checked(items + [Live(ents)])
  {
    hide EntryOf, SetChecksum;
    assert ItemOk(Live(ents));
  }

  /** With the new set on the device, the new entry is part of the tree. */
  lemma {:induction false} AttachInv(geo: Geo, x: Disk, t: Tree, lay: Layout, d: nat, e: Entry, ents: seq<Slot>)
    requires Appending(geo, x, t, lay, d) && Attachable(geo, t, d, e) && d in t.depth
    requires SetOk(ents) && EntryOf(ents) == e && d in t.own && InHeap(x.heap, t.own[d].chain)
    requires DirHolds(x.heap, t.own[d].chain, lay[d] + [Live(ents)])
    requires d in lay
    ensures Inv(geo, x, Attached(t, d, e), lay[d := lay[d] + [Live(ents)]])
  {
    hide Appending, SpaceOk, RefsOk, DirHolds, SetOk, EntryOf, Attachable;
    AppendingBasics(geo, x, t, lay, d);
    ReadsPlus(lay[d], t.dirs[d], ents, e);
    AttachKeepsRefs(geo, t, d, e);
    var t', lay' := Attached(t, d, e), lay[d := lay[d] + [Live(ents)]];
    forall k | k in t'.dirs
      ensures k in t'.own && DirOk(x.heap, t'.own[k].chain, lay'[k], t'.dirs[k])
    {
      AppendingDir(geo, x, t, lay, d, k);
      hide Reads, Checked;
    }
    hide Reads, Checked, DirOk;
  }

  /** A scan for a name hits exactly when the directory has it. */
  lemma {:induction false} LookupCases(geo: Geo, d: Disk, t: Tree, lay: Layout, k: nat, want: Name)
    requires Inv(geo, d, t, lay) && k in t.dirs
    ensures k in t.own && k in lay && InHeap(d.heap, t.own[k].chain)
    ensures
      var r := Scan(Idle, DirCells(d.heap, t.own[k].chain), Some(want));
      var i := Find(t.dirs[k], want);
      && (r.Hit? <==> i < |t.dirs[k]|)
      && (r.Hit? ==>
            && EntryAt(t, k, i) && r.found.entry == EntAt(t, k, i)
            && Editable(geo, d.heap, t.own[k].chain, lay[k], i, r.found.n, r.found.locs))
  {
    hide Inv, Scan, Find, Editable, DirCells;
    if Find(t.dirs[k], want) == |t.dirs[k]| {
      FindMisses(geo, d, t, lay, k, want);
    } else {
      HitEditable(geo, d, t, lay, k, want);
    }
    DirInLay(geo, d, t, lay, k);
  }

  lemma {:induction false} DirInLay(geo: Geo, d: Disk, t: Tree, lay: Layout, k: nat)
    requires Inv(geo, d, t, lay) && k in t.dirs
    ensures k in lay
  {
    hide SpaceOk, RefsOk, DirOk;
  }

  /** The empty name is never found. */
  lemma {:induction false} SplitResolves(geo: Geo, t: Tree, path: Path)
    requires RefsOk(geo, t)
    ensures
      var d := ResolveDir(geo, t, Parent(path));
      Resolve(geo, t, path) ==
        if d == None || Find(t.dirs[d.value], Base(path)) == |t.dirs[d.value]| then None
        else Some((d.value, Find(t.dirs[d.value], Base(path))))
  {
    hide EntryOk;
    if path == [] {
      var i := Find(t.dirs[geo.root], []);
      if i < |t.dirs[geo.root]| {
        assert EntryAt(t, geo.root, i);
        EntryNamed(geo, t, geo.root, i);
      }
    }
    hide RefsOk;
  }

  lemma {:induction false} EntryNamed(geo: Geo, t: Tree, d: nat, i: nat)
    requires RefsOk(geo, t) && EntryAt(t, d, i)
    ensures EntAt(t, d, i).name != []
  {
    assert EntryOk(geo, t, d, i);
  }
}
