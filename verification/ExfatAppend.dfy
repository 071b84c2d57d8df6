/** Writing a new entry set behind a directory's last one. */
module ExfatAppend {
  import opened Arith
  import opened Bytes
  import opened ExfatNames
  import opened ExfatEntrySet
  import opened ExfatScan
  import opened ExfatSpace
  import opened ExfatHeap
  import opened ExfatTree
  import opened ExfatLayout
  import opened ExfatEdit
  import opened ExfatGrow

  /** The cursor of an append: entry idx of cluster number ci of the chain is position pos. */
  ghost predicate CursorAt(chain: seq<nat>, k: nat, l: Loc, ci: nat, pos: nat) {
    ci < |chain| && chain[ci] == l.clus && l.idx < k && ci * k + l.idx == pos
  }

  /** t is t0 with directory d grown by some clusters: only recorded lengths differ. */
  ghost predicate GrownFrom(t0: Tree, t: Tree, d: nat) {
    && Since(t0, t, d) && t.refs == t0.refs && t.loose == t0.loose && t.depth == t0.depth
    && t.orphans == t0.orphans && t.own.Keys == t0.own.Keys && d in t0.own && d in t0.dirs && t.dirs[d] == t0.dirs[d]
    && t.own[d].contig == t0.own[d].contig
    && forall k <- t0.own :: k != d ==> t.own[k] == t0.own[k]
  }

  /** The bytes of every file and stream of t0 are the same in both heaps. */
  ghost predicate FilesKept(t0: Tree, h0: Heap, h: Heap) {
    && |h| == |h0|
    && forall k, i :: k in t0.own && k !in t0.dirs && 0 <= i < |t0.own[k].chain| && t0.own[k].chain[i] < |h0| ==>
         h[t0.own[k].chain[i]] == h0[t0.own[k].chain[i]]
  }

  lemma {:induction false} GrownFromRefl(t: Tree, d: nat)
    requires d in t.own && d in t.dirs && t.own[d].chain != [] && forall k <- t.dirs :: k in t.own
    ensures GrownFrom(t, t, d)
  {
    forall k | k in t.dirs
      ensures SimilarAll(t.dirs[k], t.dirs[k])
    {
      SimilarRefl(t.dirs[k]);
    }
  }

  lemma {:induction false} GrownFromStep(geo: Geo, t0: Tree, t: Tree, lay: Layout, d: nat, c: nat)
    requires GrownFrom(t0, t, d) && Since(t, Grown(geo, t, d, c), d)
    requires d in t.own && lay.Keys == t.dirs.Keys && d in t.dirs
    requires d in t.refs ==> t.refs[d].0 != d && BothAt(t, lay, t.refs[d].0, t.refs[d].1)
    ensures GrownFrom(t0, Grown(geo, t, d, c), d)
  {
    GrownOwn(geo, t, d, c);
    GrownParts(geo, t, lay, d, c);
    var t' := Grown(geo, t, d, c);
    hide Grown, GrownLay;
    forall k | k in t0.dirs
      ensures SimilarAll(t0.dirs[k], t'.dirs[k])
    {
      assert SimilarAll(t0.dirs[k], t.dirs[k]) && SimilarAll(t.dirs[k], t'.dirs[k]);
      hide SimilarAll;
      SimilarTrans(t0.dirs[k], t.dirs[k], t'.dirs[k]);
    }
    hide SimilarAll;
  }

  /** Where the cursor's entry lies. */
  lemma {:induction false} CursorCell(heap: Heap, chain: seq<nat>, k: nat, l: Loc, ci: nat, pos: nat)
    requires Covers(heap, chain, k) && InHeap(heap, chain) && CursorAt(chain, k, l, ci, pos)
    ensures pos < |DirCells(heap, chain)| && DirCells(heap, chain)[pos].loc == l
  {
    hide ClusterCells;
    DirCellAt(heap, chain, k, ci, l.idx);
  }

  /** Writing an entry of directory d leaves every other directory, and all of space, as it was. */
  lemma {:induction false} WriteAppending(geo: Geo, x: Disk, t: Tree, lay: Layout, d: nat, l: Loc, s: Slot)
    requires Appending(geo, x, t, lay, d) && d in t.own && l.clus in t.own[d].chain
    requires l.clus < |x.heap| && 32 * l.idx + 32 <= |x.heap[l.clus]|
    ensures Appending(geo, x.(heap := WithSlot(x.heap, l, s)), t, lay, d)
  {
    hide Appending, SpaceOk, RefsOk, Reads, Checked, DirHolds, ItemOk;
    var y := x.(heap := WithSlot(x.heap, l, s));
    AppendingBasics(geo, x, t, lay, d);
    SpaceHeap(geo, x, y, t.own, t.at);
    forall k | k in t.dirs && k != d
      ensures k in t.own && k in lay && DirOk(y.heap, t.own[k].chain, lay[k], t.dirs[k])
    {
      AppendingDir(geo, x, t, lay, d, k);
      OtherOwners(geo, x, t.own, t.at, d, k);
      DirOkFrame(x.heap, y.heap, t.own[k].chain, lay[k], t.dirs[k]);
    }
    AppendingIntro(geo, y, t, lay, d);
  }

  lemma {:induction false} WriteRefTo(geo: Geo, x: Disk, t: Tree, lay: Layout, dr: DirRef, l: Loc, s: Slot)
    requires Appending(geo, x, t, lay, dr.first) && RefTo(geo, x.heap, t, lay, dr)
    requires dr.first in t.own && l.clus in t.own[dr.first].chain
    requires l.clus < |x.heap| && 32 * l.idx + 32 <= |x.heap[l.clus]|
    ensures RefTo(geo, WithSlot(x.heap, l, s), t, lay, dr)
  {
    hide Appending, SpaceOk, RefsOk, Reads, Checked, PlacedAt, EntryAt;
    AppendingBasics(geo, x, t, lay, dr.first);
    if !dr.isRoot {
      var p := t.refs[dr.first].0;
      AppendingParent(geo, x, t, lay, dr.first);
      OtherOwners(geo, x, t.own, t.at, dr.first, p);
      DirCellsFrame(x.heap, WithSlot(x.heap, l, s), t.own[p].chain);
    }
  }

  lemma {:induction false} FilledWrite(geo: Geo, heap: Heap, chain: seq<nat>, items: seq<Item>, ents: seq<Slot>,
      m: nat, l: Loc, ci: nat)
    requires Filled(heap, chain, items, ents, m) && m < |ents| && geo.spc > 0
    requires Covers(heap, chain, geo.Slots()) && Distinct(chain)
    requires CursorAt(chain, geo.Slots(), l, ci, |AllSlots(items)| + m)
    ensures l.clus < |heap| && 32 * l.idx + 32 <= |heap[l.clus]| && l.clus in chain
    ensures Filled(WithSlot(heap, l, ents[m]), chain, items, ents, m + 1)
    ensures |DirCells(WithSlot(heap, l, ents[m]), chain)| == |DirCells(heap, chain)|
  {
    hide ClusterCells, DirCells, WithSlot;
    var pos := |AllSlots(items)| + m;
    CursorCell(heap, chain, geo.Slots(), l, ci, pos);
    CellWrite(heap, chain, geo.Slots(), pos, ents[m]);
    var c0, c1 := DirCells(heap, chain), DirCells(WithSlot(heap, l, ents[m]), chain);
    assert SlotsOfCells(c1[..pos + 1]) == SlotsOfCells(c0[..pos]) + [ents[m]];
    assert ents[..m + 1] == ents[..m] + [ents[m]];
  }

  /** The end marker completes the directory. */
  lemma {:induction false} TerminatorWrite(geo: Geo, heap: Heap, chain: seq<nat>, items: seq<Item>, ents: seq<Slot>,
      l: Loc, ci: nat)
    requires Filled(heap, chain, items, ents, |ents|) && geo.spc > 0 && ItemsOk(items) && SetShape(ents)
    requires Covers(heap, chain, geo.Slots()) && Distinct(chain)
    requires CursorAt(chain, geo.Slots(), l, ci, |AllSlots(items)| + |ents|)
    ensures l.clus < |heap| && 32 * l.idx + 32 <= |heap[l.clus]| && l.clus in chain
    ensures
      var h := WithSlot(heap, l, Zeros(32));
      InHeap(h, chain) && DirHolds(h, chain, items + [Live(ents)])
  {
    hide ClusterCells, DirCells, WithSlot, SetShape, ItemOk;
    var pos := |AllSlots(items)| + |ents|;
    CursorCell(heap, chain, geo.Slots(), l, ci, pos);
    CellWrite(heap, chain, geo.Slots(), pos, Zeros(32));
    var c0, c1 := DirCells(heap, chain), DirCells(WithSlot(heap, l, Zeros(32)), chain);
    assert c1[..pos] == c0[..pos];
    assert ents[..|ents|] == ents;
    AllSlotsConcat(items, [Live(ents)]);
    SingleItem(ents);
    ItemsPlus(items, ents);
  }

  lemma {:induction false} SingleItem(ents: seq<Slot>)
    ensures AllSlots([Live(ents)]) == ents
  {
    assert [Live(ents)][1..] == [];
    assert AllSlots([Live(ents)]) == ents + [];
  }

  lemma {:induction false} ItemsPlus(items: seq<Item>, ents: seq<Slot>)
    requires ItemsOk(items) && SetShape(ents)
    ensures ItemsOk(items + [Live(ents)])
  {
  }

  /** Without room for an end marker, the end of the chain ends the directory. */
  lemma {:induction false} FullHolds(heap: Heap, chain: seq<nat>, items: seq<Item>, ents: seq<Slot>)
    requires Filled(heap, chain, items, ents, |ents|) && ItemsOk(items) && SetShape(ents)
    requires |DirCells(heap, chain)| == |AllSlots(items)| + |ents|
    ensures DirHolds(heap, chain, items + [Live(ents)])
  {
    hide ClusterCells, DirCells, SetShape, ItemOk;
    assert ents[..|ents|] == ents;
    AllSlotsConcat(items, [Live(ents)]);
    SingleItem(ents);
    ItemsPlus(items, ents);
  }

  // ---- One state of an append ------------------------------------------------------

  /** t0 and h0 are the tree and heap before the append; m entries of the set are written. */
  ghost predicate AppendState(geo: Geo, x: Disk, t: Tree, lay: Layout, dr: DirRef, t0: Tree, h0: Heap,
                              items: seq<Item>, ents: seq<Slot>, m: nat) {
    && Appending(geo, x, t, lay, dr.first) && RefTo(geo, x.heap, t, lay, dr)
    && GrownFrom(t0, t, dr.first) && FilesKept(t0, h0, x.heap)
    && lay[dr.first] == items && dr.first in t.own
    && Filled(x.heap, t.own[dr.first].chain, items, ents, m)
    && InHeap(x.heap, t0.own[dr.first].chain)
    && |AllSlots(items)| <= |DirCells(x.heap, t0.own[dr.first].chain)|
  }

  lemma {:induction false} StateShows(geo: Geo, x: Disk, t: Tree, lay: Layout, dr: DirRef, t0: Tree, h0: Heap,
      items: seq<Item>, ents: seq<Slot>, m: nat)
    requires AppendState(geo, x, t, lay, dr, t0, h0, items, ents, m)
    ensures Shows(x, t0)
  {
    hide Appending, RefTo, FilesKept, Filled, Since, Shows, DirCells;
    AppendingShows(geo, x, t, lay, dr.first, t0, ents, m);
  }

  lemma {:induction false} FilesKeptWrite(geo: Geo, x: Disk, t: Tree, d: nat, t0: Tree, h0: Heap, l: Loc, s: Slot)
    requires SpaceOk(geo, x, t.own, t.at) && GrownFrom(t0, t, d) && FilesKept(t0, h0, x.heap)
    requires d in t.own && l.clus in t.own[d].chain && l.clus < |x.heap| && 32 * l.idx + 32 <= |x.heap[l.clus]|
    ensures FilesKept(t0, h0, WithSlot(x.heap, l, s))
  {
    forall k, i | k in t0.own && k !in t0.dirs && 0 <= i < |t0.own[k].chain|
      ensures t0.own[k].chain[i] != l.clus
    {
      assert t.own[k] == t0.own[k];
      OtherOwners(geo, x, t.own, t.at, d, k);
    }
    hide SpaceOk, GrownFrom;
  }

  lemma {:induction false} WriteState(geo: Geo, x: Disk, t: Tree, lay: Layout, dr: DirRef, t0: Tree, h0: Heap,
                                      items: seq<Item>, ents: seq<Slot>, m: nat, l: Loc, ci: nat)
    requires AppendState(geo, x, t, lay, dr, t0, h0, items, ents, m) && m < |ents|
    requires dr.first in t.own && CursorAt(t.own[dr.first].chain, geo.Slots(), l, ci, |AllSlots(items)| + m)
    ensures l.clus < |x.heap| && 32 * l.idx + 32 <= |x.heap[l.clus]| == geo.ClusBytes()
    ensures AppendState(geo, x.(heap := WithSlot(x.heap, l, ents[m])), t, lay, dr, t0, h0, items, ents, m + 1)
    ensures Shows(x.(heap := WithSlot(x.heap, l, ents[m])), t0)
  {
    hide Appending, RefTo, FilesKept, Filled, Since, Shows, DirCells, SpaceOk, RefsOk, WithSlot, CursorAt, Reads,
      Checked;
    var d := dr.first;
    AppendingBasics(geo, x, t, lay, d);
    AppendingChain(geo, x, t, lay, d, d);
    FilledWrite(geo, x.heap, t.own[d].chain, items, ents, m, l, ci);
    var y := x.(heap := WithSlot(x.heap, l, ents[m]));
    WriteAppending(geo, x, t, lay, d, l, ents[m]);
    WriteRefTo(geo, x, t, lay, dr, l, ents[m]);
    FilesKeptWrite(geo, x, t, d, t0, h0, l, ents[m]);
    WriteFits(geo, x, t, d, t0, l, ents[m], |AllSlots(items)|);
    assert AppendState(geo, y, t, lay, dr, t0, h0, items, ents, m + 1);
    hide GrownFrom;
    StateShows(geo, y, t, lay, dr, t0, h0, items, ents, m + 1);
    Sizes(geo, x, t, l);
  }

  lemma {:induction false} Sizes(geo: Geo, x: Disk, t: Tree, l: Loc)
    requires SpaceOk(geo, x, t.own, t.at) && l.clus < |x.heap|
    ensures |x.heap[l.clus]| == geo.ClusBytes()
  {
  }

  lemma {:induction false} WriteFits(geo: Geo, x: Disk, t: Tree, d: nat, t0: Tree, l: Loc, s: Slot, n: nat)
    requires GrownFrom(t0, t, d) && d in t.own && d in t0.own && l.clus < |x.heap|
      && 32 * l.idx + 32 <= |x.heap[l.clus]|
    requires InHeap(x.heap, t.own[d].chain) && Covers(x.heap, t.own[d].chain, geo.Slots())
    requires InHeap(x.heap, t0.own[d].chain) && n <= |DirCells(x.heap, t0.own[d].chain)|
    ensures InHeap(WithSlot(x.heap, l, s), t0.own[d].chain)
    ensures n <= |DirCells(WithSlot(x.heap, l, s), t0.own[d].chain)|
  {
    var h := WithSlot(x.heap, l, s);
    assert t0.own[d].chain <= t.own[d].chain;
    hide GrownFrom, ClusterCells;
    assert forall i :: 0 <= i < |t0.own[d].chain| ==> t0.own[d].chain[i] == t.own[d].chain[i];
    DirCellsSize(x.heap, t0.own[d].chain, geo.Slots());
    DirCellsSize(h, t0.own[d].chain, geo.Slots());
  }

  lemma {:induction false} FilesKeptGrow(geo: Geo, x0: Disk, xz: Disk, x1: Disk, t: Tree, lay: Layout, d: nat, c: nat,
      t0: Tree, h0: Heap)
    requires SpaceOk(geo, x0, t.own, t.at) && GrownFrom(t0, t, d) && FilesKept(t0, h0, x0.heap)
    requires 2 <= c < geo.Total() && !x0.bits[c] && d in t.own && t.own[d].chain != []
    requires Zeroed(geo, x0, xz, t.own[d].chain[|t.own[d].chain| - 1], c) && MetaDone(geo, xz, x1, t, lay, d)
    requires d in t.refs ==> t.refs[d].0 in t.dirs
    ensures FilesKept(t0, h0, x1.heap)
  {
    GrowChanges(geo, x0, xz, x1, t, lay, d, c);
    hide MetaDone, Zeroed, GrownFrom;
    forall k, i | k in t0.own && k !in t0.dirs && 0 <= i < |t0.own[k].chain| && t0.own[k].chain[i] < |h0|
      ensures x1.heap[t0.own[k].chain[i]] == x0.heap[t0.own[k].chain[i]]
    {
      FileApart(geo, x0, t, d, c, t0, k);
      assert t0.own[k].chain[i] in t0.own[k].chain;
    }
  }

  lemma {:induction false} FileApart(geo: Geo, x0: Disk, t: Tree, d: nat, c: nat, t0: Tree, k: nat)
    requires SpaceOk(geo, x0, t.own, t.at) && GrownFrom(t0, t, d) && 2 <= c < geo.Total() && !x0.bits[c]
    requires k in t0.own && k !in t0.dirs && (d in t.refs ==> t.refs[d].0 in t.dirs)
    ensures c !in t0.own[k].chain
    ensures d in t.refs && t.refs[d].0 in t.own ==> forall i <- t0.own[k].chain :: i !in t.own[t.refs[d].0].chain
  {
    assert t.own[k] == t0.own[k];
    FreeNotOwned(geo, x0, t.own, t.at, k, c);
    if d in t.refs && t.refs[d].0 in t.own {
      OtherOwners(geo, x0, t.own, t.at, t.refs[d].0, k);
    }
  }

  lemma {:induction false} GrowChanges(geo: Geo, x0: Disk, xz: Disk, x1: Disk, t: Tree, lay: Layout, d: nat, c: nat)
    requires d in t.own && t.own[d].chain != []
    requires Zeroed(geo, x0, xz, t.own[d].chain[|t.own[d].chain| - 1], c) && MetaDone(geo, xz, x1, t, lay, d)
    ensures |x1.heap| == |x0.heap| && (d in t.refs ==> t.refs[d].0 in t.own)
    ensures forall i :: 0 <= i < |x0.heap| && i != c && (d in t.refs ==> i !in t.own[t.refs[d].0].chain) ==>
      x1.heap[i] == x0.heap[i]
  {
    hide WithSize;
  }

  lemma {:induction false} GrowState(geo: Geo, x0: Disk, x1: Disk, t: Tree, lay: Layout, dr: DirRef, dr': DirRef,
      t0: Tree, h0: Heap, items: seq<Item>, ents: seq<Slot>, m: nat, c: nat)
    requires AppendState(geo, x0, t, lay, dr, t0, h0, items, ents, m) && dr'.first == dr.first
    requires 2 <= c < geo.Total() && c < |x0.bits| && !x0.bits[c] && t.own[dr.first].chain != []
    requires exists xz ::
      && Zeroed(geo, x0, xz, t.own[dr.first].chain[|t.own[dr.first].chain| - 1], c)
      && MetaDone(geo, xz, x1, t, lay, dr.first)
    requires Appending(geo, x1, Grown(geo, t, dr.first, c), GrownLay(geo, t, lay, dr.first), dr.first)
    requires RefTo(geo, x1.heap, Grown(geo, t, dr.first, c), GrownLay(geo, t, lay, dr.first), dr')
    ensures AppendState(geo, x1, Grown(geo, t, dr.first, c), GrownLay(geo, t, lay, dr.first), dr', t0, h0, items, ents,
      m)
    ensures Grown(geo, t, dr.first, c).own[dr.first].chain == t.own[dr.first].chain + [c]
  {
    hide Appending, RefTo, Zeroed, MetaDone, FilesKept, Filled, Since, Shows, DirCells, SpaceOk, RefsOk, Reads,
      Checked, Grown, GrownLay, BothAt;
    var d := dr.first;
    var xz :| Zeroed(geo, x0, xz, t.own[d].chain[|t.own[d].chain| - 1], c) && MetaDone(geo, xz, x1, t, lay, d);
    AppendingBasics(geo, x0, t, lay, d);
    AppendingChain(geo, x0, t, lay, d, d);
    if d in t.refs {
      AppendingParent(geo, x0, t, lay, d);
    }
    GrownOwn(geo, t, d, c);
    GrownParts(geo, t, lay, d, c);
    GrownSince(geo, t, lay, d, c);
    GrownFromStep(geo, t0, t, lay, d, c);
    FilesKeptGrow(geo, x0, xz, x1, t, lay, d, c, t0, h0);
    FilledGrown(geo, x0, xz, x1, t, lay, d, c, ents, m);
    AppendingChain(geo, x1, Grown(geo, t, d, c), GrownLay(geo, t, lay, d), d, d);
    GrowFits(geo, x0, x1, t, d, t0, c, |AllSlots(items)|);
  }

  lemma {:induction false} GrowFits(geo: Geo, x0: Disk, x1: Disk, t: Tree, d: nat, t0: Tree, c: nat, n: nat)
    requires GrownFrom(t0, t, d) && d in t.own && d in t0.own
    requires InHeap(x0.heap, t.own[d].chain) && Covers(x0.heap, t.own[d].chain, geo.Slots())
    requires InHeap(x1.heap, t.own[d].chain + [c]) && Covers(x1.heap, t.own[d].chain + [c], geo.Slots())
    requires InHeap(x0.heap, t0.own[d].chain) && n <= |DirCells(x0.heap, t0.own[d].chain)|
    ensures InHeap(x1.heap, t0.own[d].chain) && n <= |DirCells(x1.heap, t0.own[d].chain)|
  {
    assert t0.own[d].chain <= t.own[d].chain;
    hide GrownFrom, ClusterCells;
    assert forall i ::
      0 <= i < |t0.own[d].chain|
      ==> t0.own[d].chain[i] == t.own[d].chain[i] == (t.own[d].chain + [c])[i];
    DirCellsSize(x0.heap, t0.own[d].chain, geo.Slots());
    DirCellsSize(x1.heap, t0.own[d].chain, geo.Slots());
  }

  // ---- Cursor movement ------------------------------------------------------------

  /** After cluster ci: the next one in the chain, or none when the FAT says so. */
  lemma {:induction false} PeekMeans(geo: Geo, x: Disk, t: Tree, lay: Layout, d: nat, cur: nat, ci: nat)
    requires Appending(geo, x, t, lay, d) && d in t.own && ci < |t.own[d].chain| && t.own[d].chain[ci] == cur
    ensures cur < |x.fat|
    ensures (2 <= x.fat[cur] < EOC) <==> ci + 1 < |t.own[d].chain|
    ensures ci + 1 < |t.own[d].chain| ==> x.fat[cur] == t.own[d].chain[ci + 1]
  {
    hide Appending, InHeap, Covers, Distinct, DiskOk, SpaceOk, RefsOk, Reads, Checked;
    AppendingBasics(geo, x, t, lay, d);
    AppendingChain(geo, x, t, lay, d, d);
    PeekChain(x.fat, t.own[d].chain, ci);
  }

  lemma {:induction false} PeekChain(fat: seq<nat>, chain: seq<nat>, ci: nat)
    requires PathOf(fat, chain) && fat[chain[|chain| - 1]] >= EOC && ci < |chain|
    ensures chain[ci] < |fat|
    ensures (2 <= fat[chain[ci]] < EOC) <==> ci + 1 < |chain|
    ensures ci + 1 < |chain| ==> fat[chain[ci]] == chain[ci + 1]
  {
    if ci + 1 < |chain| {
      assert fat[chain[ci]] == chain[ci + 1];
    } else {
      assert ci == |chain| - 1;
    }
  }

  lemma {:induction false} CursorNext(chain: seq<nat>, k: nat, l: Loc, ci: nat, pos: nat)
    requires CursorAt(chain, k, l, ci, pos)
    ensures l.idx + 1 < k ==> CursorAt(chain, k, Loc(l.clus, l.idx + 1), ci, pos + 1)
    ensures l.idx + 1 >= k && ci + 1 < |chain| ==> CursorAt(chain, k, Loc(chain[ci + 1], 0), ci + 1, pos + 1)
    ensures l.idx + 1 >= k && ci + 1 == |chain| ==> pos + 1 == |chain| * k
  {
    assert (ci + 1) * k == ci * k + k;
  }

  lemma {:induction false} CursorGrown(chain: seq<nat>, k: nat, c: nat, pos: nat)
    requires pos == |chain| * k && k > 0
    ensures CursorAt(chain + [c], k, Loc(c, 0), |chain|, pos)
  {
  }

  /** The finished append: directory d holds one more set; everything else is as GrownFrom says. */
  ghost predicate AppendDone(geo: Geo, x: Disk, t: Tree, lay: Layout, d: nat, t0: Tree, h0: Heap, items: seq<Item>,
      ents: seq<Slot>) {
    && Appending(geo, x, t, lay, d) && GrownFrom(t0, t, d) && FilesKept(t0, h0, x.heap)
    && lay[d] == items && d in t.own
    && InHeap(x.heap, t.own[d].chain)
    && DirHolds(x.heap, t.own[d].chain, items + [Live(ents)])
  }

  lemma {:induction false} StateStart(geo: Geo, x: Disk, t: Tree, lay: Layout, dr: DirRef, ents: seq<Slot>)
    requires Inv(geo, x, t, lay) && RefTo(geo, x.heap, t, lay, dr)
    ensures dr.first in t.own && dr.first in lay
    ensures AppendState(geo, x, t, lay, dr, t, x.heap, lay[dr.first], ents, 0)
    ensures ItemsOk(lay[dr.first])
  {
    hide SpaceOk, RefsOk, RefTo, Reads, Checked, ClusterCells;
    var d := dr.first;
    RefToListed(geo, x.heap, t, lay, dr);
    assert DirOk(x.heap, t.own[d].chain, lay[d], t.dirs[d]);
    InvAppending(geo, x, t, lay, d);
    AppendingBasics(geo, x, t, lay, d);
    hide Appending, Inv;
    GrownFromRefl(t, d);
    assert ents[..0] == [];
    assert AllSlots(lay[d]) + [] == AllSlots(lay[d]);
    hide GrownFrom;
  }

  lemma {:induction false} RefToListed(geo: Geo, heap: Heap, t: Tree, lay: Layout, dr: DirRef)
    requires RefTo(geo, heap, t, lay, dr)
    ensures dr.first in t.dirs
  {
  }

  lemma {:induction false} InvAppending(geo: Geo, x: Disk, t: Tree, lay: Layout, d: nat)
    requires Inv(geo, x, t, lay) && d in t.dirs
    ensures Appending(geo, x, t, lay, d)
  {
    hide SpaceOk, EntriesOk, DirHolds, Reads, Checked, ItemsOk;
    assert DirOk(x.heap, t.own[d].chain, lay[d], t.dirs[d]);
  }

  lemma {:induction false} StateDone(geo: Geo, x: Disk, t: Tree, lay: Layout, dr: DirRef, t0: Tree, h0: Heap,
      items: seq<Item>, ents: seq<Slot>)
    requires AppendState(geo, x, t, lay, dr, t0, h0, items, ents, |ents|) && ItemsOk(items) && SetShape(ents)
    requires |DirCells(x.heap, t.own[dr.first].chain)| == |AllSlots(items)| + |ents|
    ensures AppendDone(geo, x, t, lay, dr.first, t0, h0, items, ents)
  {
    hide Appending, RefTo, FilesKept, GrownFrom, ItemsOk, SetShape;
    FullHolds(x.heap, t.own[dr.first].chain, items, ents);
  }

  lemma {:induction false} StateTerminated(geo: Geo, x: Disk, t: Tree, lay: Layout, dr: DirRef, t0: Tree, h0: Heap,
      items: seq<Item>, ents: seq<Slot>, l: Loc, ci: nat)
    requires AppendState(geo, x, t, lay, dr, t0, h0, items, ents, |ents|) && ItemsOk(items) && SetShape(ents)
    requires CursorAt(t.own[dr.first].chain, geo.Slots(), l, ci, |AllSlots(items)| + |ents|)
    ensures l.clus < |x.heap| && 32 * l.idx + 32 <= |x.heap[l.clus]| == geo.ClusBytes()
    ensures
      var y := x.(heap := WithSlot(x.heap, l, Zeros(32)));
      AppendDone(geo, y, t, lay, dr.first, t0, h0, items, ents) && Shows(y, t0)
  {
    hide Appending, RefTo, FilesKept, Filled, GrownFrom, ItemsOk, SetShape, Shows, DirHolds, CursorAt, SpaceOk, RefsOk,
      Reads, Checked, DirCells, WithSlot;
    var d := dr.first;
    GrownFromListed(t0, t, d);
    AppendingBasics(geo, x, t, lay, d);
    AppendingChain(geo, x, t, lay, d, d);
    TerminatorWrite(geo, x.heap, t.own[d].chain, items, ents, l, ci);
    Sizes(geo, x, t, l);
    var y := x.(heap := WithSlot(x.heap, l, Zeros(32)));
    WriteAppending(geo, x, t, lay, d, l, Zeros(32));
    FilesKeptWrite(geo, x, t, d, t0, h0, l, Zeros(32));
    WriteFits(geo, x, t, d, t0, l, Zeros(32), |AllSlots(items)|);
    HoldsFilled(y.heap, t.own[d].chain, items, ents);
    GrownFromSince(t0, t, d);
    AppendingShows(geo, y, t, lay, d, t0, ents, |ents|);
  }

  lemma {:induction false} GrownFromListed(t0: Tree, t: Tree, d: nat)
    requires GrownFrom(t0, t, d)
    ensures d in t0.own && d in t0.dirs && d in t.dirs
  {
  }

  lemma {:induction false} GrownFromSince(t0: Tree, t: Tree, d: nat)
    requires GrownFrom(t0, t, d)
    ensures Since(t0, t, d)
  {
  }

  lemma {:induction false} HoldsFilled(heap: Heap, chain: seq<nat>, items: seq<Item>, ents: seq<Slot>)
    requires InHeap(heap, chain) && DirHolds(heap, chain, items + [Live(ents)])
    ensures Filled(heap, chain, items, ents, |ents|)
  {
    hide DirCells, ItemsOk;
    AllSlotsConcat(items, [Live(ents)]);
    SingleItem(ents);
    assert ents[..|ents|] == ents;
  }

  // ---- The loop of an append, one predicate per moment ----------------------------------

  /** What an append started from, how many entries are written, and the index of the cursor's
      cluster in the chain. */
  datatype AppendPos = AppendPos(t0: Tree, h0: Heap, items: seq<Item>, ents: seq<Slot>, m: nat, ci: nat)

  /** Where the next entry goes; nowhere when the chain ends; or no cluster could be had. */
  datatype Place = Next(dr: DirRef, loc: Loc) | Ended | Full

  ghost predicate PosOk(geo: Geo, x: Disk, t: Tree, lay: Layout, dr: DirRef, p: AppendPos) {
    && AppendState(geo, x, t, lay, dr, p.t0, p.h0, p.items, p.ents, p.m) && ItemsOk(p.items)
  }

  /** m entries written, the cursor on the last of them. */
  ghost predicate AppendAt(geo: Geo, x: Disk, t: Tree, lay: Layout, dr: DirRef, l: Loc, p: AppendPos) {
    && PosOk(geo, x, t, lay, dr, p) && p.m > 0 && dr.first in t.own
    && CursorAt(t.own[dr.first].chain, geo.Slots(), l, p.ci, |AllSlots(p.items)| + p.m - 1)
  }

  /** m entries written, the cursor on the place of the next. */
  ghost predicate NextAt(geo: Geo, x: Disk, t: Tree, lay: Layout, dr: DirRef, l: Loc, p: AppendPos) {
    && PosOk(geo, x, t, lay, dr, p) && dr.first in t.own
    && CursorAt(t.own[dr.first].chain, geo.Slots(), l, p.ci, |AllSlots(p.items)| + p.m)
  }

  /** The entries written so far fill the chain. */
  ghost predicate FullAt(geo: Geo, x: Disk, t: Tree, lay: Layout, dr: DirRef, p: AppendPos) {
    && PosOk(geo, x, t, lay, dr, p) && dr.first in t.own
    && |AllSlots(p.items)| + p.m == |t.own[dr.first].chain| * geo.Slots()
  }

  lemma {:induction false} NextInCluster(geo: Geo, x: Disk, t: Tree, lay: Layout, dr: DirRef, l: Loc, p: AppendPos)
    requires AppendAt(geo, x, t, lay, dr, l, p) && l.idx + 1 < geo.Slots()
    ensures NextAt(geo, x, t, lay, dr, Loc(l.clus, l.idx + 1), p)
  {
    hide PosOk, CursorAt;
    CursorNext(t.own[dr.first].chain, geo.Slots(), l, p.ci, |AllSlots(p.items)| + p.m - 1);
  }

  lemma {:induction false} PosChain(geo: Geo, x: Disk, t: Tree, lay: Layout, dr: DirRef, p: AppendPos)
    requires PosOk(geo, x, t, lay, dr, p)
    ensures Appending(geo, x, t, lay, dr.first) && RefTo(geo, x.heap, t, lay, dr) && Since(p.t0, t, dr.first)
    ensures dr.first in t.own && t.own[dr.first].chain != [] && InHeap(x.heap, t.own[dr.first].chain)
    ensures Shows(x, p.t0)
  {
    hide Appending, RefTo, FilesKept, Filled, Since, Shows;
    StateShows(geo, x, t, lay, dr, p.t0, p.h0, p.items, p.ents, p.m);
    PosDir(geo, x, t, lay, dr);
    FilledIn(x.heap, t.own[dr.first].chain, p.items, p.ents, p.m);
  }

  lemma {:induction false} FilledIn(heap: Heap, chain: seq<nat>, items: seq<Item>, ents: seq<Slot>, m: nat)
    requires Filled(heap, chain, items, ents, m)
    ensures InHeap(heap, chain)
  {
  }

  lemma {:induction false} PosDir(geo: Geo, x: Disk, t: Tree, lay: Layout, dr: DirRef)
    requires Appending(geo, x, t, lay, dr.first)
    ensures dr.first in t.own && t.own[dr.first].chain != []
  {
    hide Appending;
    AppendingBasics(geo, x, t, lay, dr.first);
  }

  /** At the end of a cluster the FAT says where to go on, or that the chain is full. */
  lemma {:induction false} NextLinked(geo: Geo, x: Disk, t: Tree, lay: Layout, dr: DirRef, l: Loc, p: AppendPos)
    requires AppendAt(geo, x, t, lay, dr, l, p) && l.idx + 1 >= geo.Slots()
    ensures l.clus < |x.fat|
    ensures 2 <= x.fat[l.clus] < EOC ==> NextAt(geo, x, t, lay, dr, Loc(x.fat[l.clus], 0), p.(ci := p.ci + 1))
    ensures !(2 <= x.fat[l.clus] < EOC) ==>
      && FullAt(geo, x, t, lay, dr, p) && t.own[dr.first].chain != []
      && p.ci == |t.own[dr.first].chain| - 1 && l.clus == t.own[dr.first].chain[p.ci]
  {
    hide PosOk, Appending, RefTo, Since, Shows, AllSlots;
    PosChain(geo, x, t, lay, dr, p);
    PeekMeans(geo, x, t, lay, dr.first, l.clus, p.ci);
    CursorNext(t.own[dr.first].chain, geo.Slots(), l, p.ci, |AllSlots(p.items)| + p.m - 1);
    hide CursorAt;
    PosRenumber(geo, x, t, lay, dr, p);
  }

  lemma {:induction false} PosRenumber(geo: Geo, x: Disk, t: Tree, lay: Layout, dr: DirRef, p: AppendPos)
    requires PosOk(geo, x, t, lay, dr, p)
    ensures PosOk(geo, x, t, lay, dr, p.(ci := p.ci + 1))
  {
  }

  lemma {:induction false} GrowReady(geo: Geo, x: Disk, t: Tree, lay: Layout, dr: DirRef, l: Loc, p: AppendPos)
    requires FullAt(geo, x, t, lay, dr, p)
    ensures Appending(geo, x, t, lay, dr.first) && RefTo(geo, x.heap, t, lay, dr)
    ensures dr.first in t.own && t.own[dr.first].chain != []
    ensures Since(p.t0, t, dr.first) && Shows(x, p.t0)
  {
    hide PosOk, Appending, RefTo, Since, Shows;
    PosChain(geo, x, t, lay, dr, p);
  }

  lemma {:induction false} NextGrown(geo: Geo, x0: Disk, x1: Disk, t: Tree, lay: Layout, dr: DirRef, dr': DirRef,
      l: Loc, p: AppendPos, c: nat)
    requires FullAt(geo, x0, t, lay, dr, p) && dr'.first == dr.first && t.own[dr.first].chain != []
    requires p.ci == |t.own[dr.first].chain| - 1
    requires 2 <= c < geo.Total() && c < |x0.bits| && !x0.bits[c]
    requires exists xz ::
      && Zeroed(geo, x0, xz, t.own[dr.first].chain[|t.own[dr.first].chain| - 1], c)
      && MetaDone(geo, xz, x1, t, lay, dr.first)
    requires Appending(geo, x1, Grown(geo, t, dr.first, c), GrownLay(geo, t, lay, dr.first), dr.first)
    requires RefTo(geo, x1.heap, Grown(geo, t, dr.first, c), GrownLay(geo, t, lay, dr.first), dr')
    ensures NextAt(geo, x1, Grown(geo, t, dr.first, c), GrownLay(geo, t, lay, dr.first), dr', Loc(c, 0),
      p.(ci := p.ci + 1))
  {
    hide AppendState, Appending, RefTo, Zeroed, MetaDone, Grown, GrownLay, AllSlots, CursorAt;
    GrowState(geo, x0, x1, t, lay, dr, dr', p.t0, p.h0, p.items, p.ents, p.m, c);
    SlotsPositive(geo, x1, Grown(geo, t, dr.first, c), GrownLay(geo, t, lay, dr.first), dr.first);
    CursorGrown(t.own[dr.first].chain, geo.Slots(), c, |AllSlots(p.items)| + p.m);
    GrownOwn(geo, t, dr.first, c);
  }

  lemma {:induction false} SlotsPositive(geo: Geo, x: Disk, t: Tree, lay: Layout, d: nat)
    requires Appending(geo, x, t, lay, d)
    ensures geo.Slots() > 0
  {
  }

  lemma {:induction false} AppendStart(geo: Geo, x: Disk, t: Tree, lay: Layout, dr: DirRef, l: Loc, ents: seq<Slot>,
      ci: nat)
    requires Inv(geo, x, t, lay) && RefTo(geo, x.heap, t, lay, dr)
    requires dr.first in t.own && dr.first in lay
    requires CursorAt(t.own[dr.first].chain, geo.Slots(), l, ci, |AllSlots(lay[dr.first])|)
    ensures NextAt(geo, x, t, lay, dr, l, AppendPos(t, x.heap, lay[dr.first], ents, 0, ci))
  {
    hide Inv, RefTo, AppendState, ItemsOk, CursorAt;
    StateStart(geo, x, t, lay, dr, ents);
  }

  lemma {:induction false} AppendWrite(geo: Geo, x: Disk, t: Tree, lay: Layout, dr: DirRef, l: Loc, p: AppendPos)
    requires NextAt(geo, x, t, lay, dr, l, p) && p.m < |p.ents|
    ensures l.clus < |x.heap| && 32 * l.idx + 32 <= |x.heap[l.clus]| == geo.ClusBytes()
    ensures
      var y := x.(heap := WithSlot(x.heap, l, p.ents[p.m]));
      AppendAt(geo, y, t, lay, dr, l, p.(m := p.m + 1)) && Shows(y, p.t0)
  {
    hide AppendState, ItemsOk, CursorAt, WithSlot, Shows;
    WriteState(geo, x, t, lay, dr, p.t0, p.h0, p.items, p.ents, p.m, l, p.ci);
  }

  lemma {:induction false} AppendFull(geo: Geo, x: Disk, t: Tree, lay: Layout, dr: DirRef, p: AppendPos)
    requires FullAt(geo, x, t, lay, dr, p) && p.m == |p.ents| && SetShape(p.ents)
    ensures AppendDone(geo, x, t, lay, dr.first, p.t0, p.h0, p.items, p.ents)
  {
    hide Appending, RefTo, Since, Shows, Filled, GrownFrom, FilesKept, ItemsOk, SetShape, AppendDone;
    PosChain(geo, x, t, lay, dr, p);
    FullSize(geo, x, t, lay, dr.first);
    StateDone(geo, x, t, lay, dr, p.t0, p.h0, p.items, p.ents);
  }

  lemma {:induction false} FullSize(geo: Geo, x: Disk, t: Tree, lay: Layout, d: nat)
    requires Appending(geo, x, t, lay, d) && d in t.own && InHeap(x.heap, t.own[d].chain)
    ensures |DirCells(x.heap, t.own[d].chain)| == |t.own[d].chain| * geo.Slots()
  {
    hide Appending, SpaceOk, RefsOk, Reads, Checked, DirCells;
    AppendingBasics(geo, x, t, lay, d);
    AppendingChain(geo, x, t, lay, d, d);
    DirCellsSize(x.heap, t.own[d].chain, geo.Slots());
  }

  lemma {:induction false} AppendTerminated(geo: Geo, x: Disk, t: Tree, lay: Layout, dr: DirRef, l: Loc, p: AppendPos)
    requires NextAt(geo, x, t, lay, dr, l, p) && p.m == |p.ents| && SetShape(p.ents)
    ensures l.clus < |x.heap| && 32 * l.idx + 32 <= |x.heap[l.clus]| == geo.ClusBytes()
    ensures
      var y := x.(heap := WithSlot(x.heap, l, Zeros(32)));
      AppendDone(geo, y, t, lay, dr.first, p.t0, p.h0, p.items, p.ents) && Shows(y, p.t0)
  {
    hide AppendState, ItemsOk, SetShape, CursorAt, WithSlot, Shows, AppendDone;
    StateTerminated(geo, x, t, lay, dr, p.t0, p.h0, p.items, p.ents, l, p.ci);
  }

  /** No free cluster is left. */
  ghost predicate VolumeFull(geo: Geo, x: Disk) {
    |x.bits| == geo.Total() && forall c :: 2 <= c < geo.Total() ==> x.bits[c]
  }

  /** Among the states since `before`, one had no free cluster left. */
  ghost predicate FullDuring(geo: Geo, before: seq<Disk>, tr: seq<Disk>) {
    exists j :: |before| <= j < |tr| && VolumeFull(geo, tr[j])
  }

  lemma {:induction false} FullNow(geo: Geo, before: seq<Disk>, tr: seq<Disk>, x: Disk, t0: Tree)
    requires ShownThrough(before, tr, t0) && VolumeFull(geo, x)
    ensures FullDuring(geo, before, tr + [x])
  {
    hide VolumeFull, Shows;
    assert (tr + [x])[|tr|] == x;
  }

  lemma {:induction false} FullLater(geo: Geo, a: seq<Disk>, b: seq<Disk>, c: seq<Disk>, d: seq<Disk>)
    requires FullDuring(geo, b, c) && |a| <= |b| && Extends(c, d)
    ensures FullDuring(geo, a, d)
  {
    var j :| |b| <= j < |c| && VolumeFull(geo, c[j]);
    assert d[j] == d[..|c|][j] == c[j];
  }

  lemma {:induction false} AppendFailed(geo: Geo, x: Disk, t: Tree, lay: Layout, dr: DirRef, p: AppendPos)
    requires FullAt(geo, x, t, lay, dr, p)
    ensures Appending(geo, x, t, lay, dr.first) && GrownFrom(p.t0, t, dr.first)
  {
    hide Appending, RefTo, GrownFrom, FilesKept, Filled, ItemsOk;
  }

  /** The volume was full at the start or at some moment since. */
  ghost predicate RanOut(geo: Geo, x0: Disk, before: seq<Disk>, tr: seq<Disk>) {
    VolumeFull(geo, x0) || FullDuring(geo, before, tr)
  }

  /** x is the starting state or the latest one written. */
  ghost predicate Latest(x0: Disk, before: seq<Disk>, tr: seq<Disk>, x: Disk) {
    x == x0 || (|tr| > |before| && tr[|tr| - 1] == x)
  }

  lemma {:induction false} RanOutNow(geo: Geo, x0: Disk, before: seq<Disk>, tr: seq<Disk>, x: Disk, tr': seq<Disk>)
    requires Latest(x0, before, tr, x) && VolumeFull(geo, x) && Extends(tr, tr')
    ensures RanOut(geo, x0, before, tr')
  {
    hide VolumeFull;
    if x != x0 {
      assert tr'[|tr| - 1] == tr'[..|tr|][|tr| - 1] == x;
    }
  }

  lemma {:induction false} ExtendsRefl(tr: seq<Disk>)
    ensures Extends(tr, tr)
  {
  }

  lemma {:induction false} ExtendsTrans(a: seq<Disk>, b: seq<Disk>, c: seq<Disk>)
    requires Extends(a, b) && Extends(b, c)
    ensures Extends(a, c)
  {
    assert c[..|a|] == c[..|b|][..|a|];
  }

  lemma {:induction false} RanOutLater(geo: Geo, x0: Disk, before: seq<Disk>, mid: seq<Disk>, tr: seq<Disk>)
    requires FullDuring(geo, mid, tr) && Extends(before, mid)
    ensures RanOut(geo, x0, before, tr)
  {
    hide VolumeFull;
  }

  lemma {:induction false} LatestRefl(x: Disk, tr: seq<Disk>)
    ensures Latest(x, tr, tr, x)
  {
  }

  /** State x is x0 or on record since. */
  ghost predicate Logged(x0: Disk, before: seq<Disk>, tr: seq<Disk>, x: Disk) {
    Extends(before, tr) && (x == x0 || exists j :: |before| <= j < |tr| && tr[j] == x)
  }

  lemma {:induction false} LoggedRefl(x: Disk, tr: seq<Disk>)
    ensures Logged(x, tr, tr, x)
  {
  }

  lemma {:induction false} LatestLogged(x0: Disk, before: seq<Disk>, tr: seq<Disk>, x: Disk)
    requires Extends(before, tr) && Latest(x0, before, tr, x)
    ensures Logged(x0, before, tr, x)
  {
  }

  lemma {:induction false} LoggedTrans(x0: Disk, tr0: seq<Disk>, x1: Disk, tr1: seq<Disk>, x2: Disk, tr2: seq<Disk>)
    requires Logged(x0, tr0, tr1, x1) && Logged(x1, tr1, tr2, x2)
    ensures Logged(x0, tr0, tr2, x2)
  {
    ExtendsTrans(tr0, tr1, tr2);
    if x2 == x1 && x1 != x0 {
      var j :| |tr0| <= j < |tr1| && tr1[j] == x1;
      assert tr2[j] == tr2[..|tr1|][j] == x1;
    }
  }

  lemma {:induction false} EditLogged(x0: Disk, tr0: seq<Disk>, x1: Disk, tr1: seq<Disk>, tr: seq<Disk>, x: Disk,
      chain: seq<nat>, start: nat, slots: seq<Slot>, k: nat)
    requires Extends(tr0, tr1) && EditTrace(x1, tr1, tr, chain, start, slots, k) && |tr| > |tr1| && tr[|tr| - 1] == x
    ensures Logged(x0, tr0, tr, x)
  {
    hide Rewritten;
    ExtendsTrans(tr0, tr1, tr);
  }

  /** A volume that was full on the way was full on the whole way. */
  lemma {:induction false} RanOutFrom(geo: Geo, x0: Disk, tr0: seq<Disk>, x1: Disk, tr1: seq<Disk>, tr: seq<Disk>)
    requires Logged(x0, tr0, tr1, x1) && Extends(tr1, tr)
    ensures RanOut(geo, x1, tr1, tr) ==> RanOut(geo, x0, tr0, tr)
  {
    hide VolumeFull;
    if RanOut(geo, x1, tr1, tr) && VolumeFull(geo, x1) && x1 != x0 {
      var j :| |tr0| <= j < |tr1| && tr1[j] == x1;
      assert tr[j] == tr[..|tr1|][j] == x1;
    }
  }

  lemma {:induction false} ShownExtends(before: seq<Disk>, tr: seq<Disk>, t0: Tree)
    requires ShownThrough(before, tr, t0)
    ensures Extends(before, tr)
  {
    hide Shows;
  }
}
