/** In-place edits of directory entries and what they do to a directory's contents. */
module ExfatEdit {
  import opened Arith
  import opened Bytes
  import opened ExfatNames
  import opened ExfatEntrySet
  import opened ExfatScan
  import opened ExfatSpace
  import opened ExfatHeap
  import opened ExfatTree
  import opened ExfatLayout

  /** Rewriting the entry at walking position q changes that position only. */
  lemma {:induction false} CellWrite(heap: Heap, chain: seq<nat>, k: nat, q: nat, s: Slot)
    requires InHeap(heap, chain) && Covers(heap, chain, k) && Distinct(chain) && q < |DirCells(heap, chain)| && k > 0
    ensures
      var l := DirCells(heap, chain)[q].loc;
      && l.clus in chain && l.clus < |heap| && l.idx < k && 32 * l.idx + 32 <= |heap[l.clus]|
      && InHeap(WithSlot(heap, l, s), chain) && Covers(WithSlot(heap, l, s), chain, k)
      && DirCells(WithSlot(heap, l, s), chain) == DirCells(heap, chain)[q := Cell(l, s)]
  {
    hide ClusterCells, WithSlot, DirCells;
    DirCellsSize(heap, chain, k);
    var ci, j := RowOf(q, k, |chain|);
    DirCellAt(heap, chain, k, ci, j);
    DirCellsWrite(heap, chain, k, ci, j, s);
  }

  /** The cells with the entries from position `start` on replaced. */
  function Overwrite(cells: seq<Cell>, start: nat, slots: seq<Slot>): (r: seq<Cell>)
    ensures |r| == |cells|
    ensures LocsOf(r) == LocsOf(cells)
  {
    seq(|cells|, q requires 0 <= q < |cells| =>
      if start <= q < start + |slots| then Cell(cells[q].loc, slots[q - start]) else cells[q])
  }

  lemma {:induction false} OverwriteNext(cells: seq<Cell>, start: nat, slots: seq<Slot>, k: nat)
    requires k < |slots| && start + k < |cells|
    ensures Overwrite(cells, start, slots[..k])[start + k := Cell(cells[start + k].loc, slots[k])]
         == Overwrite(cells, start, slots[..k + 1])
    ensures Overwrite(cells, start, slots[..0]) == cells
  {
  }

  /** Overwriting the first entries of item i turns it into another item. */
  lemma {:induction false} OverwriteItem(items: seq<Item>, cells: seq<Cell>, i: nat, slots: seq<Slot>, it: Item)
    requires i < |items| && |slots| <= |SlotsOf(items[i])|
    requires SlotsOf(it) == slots + SlotsOf(items[i])[|slots|..]
    requires |AllSlots(items)| <= |cells| && SlotsOfCells(cells[..|AllSlots(items)|]) == AllSlots(items)
    ensures |AllSlots(items[i := it])| == |AllSlots(items)|
    ensures SlotsOfCells(Overwrite(cells, ItemStart(items, i), slots)[..|AllSlots(items)|]) == AllSlots(items[i := it])
  {
    hide AllSlots, Overwrite;
    var a, b := items[..i], items[i + 1..];
    assert items == a + ([items[i]] + b) && items[i := it] == a + ([it] + b);
    AllSlotsConcat(a, [items[i]] + b);
    AllSlotsConcat(a, [it] + b);
    AllSlotsFirst([items[i]] + b);
    AllSlotsFirst([it] + b);
    assert ([items[i]] + b)[1..] == b && ([it] + b)[1..] == b;
    OverwriteSlots(AllSlots(a), SlotsOf(items[i]), AllSlots(b), cells, slots, AllSlots(items));
  }

  lemma {:induction false} OverwriteSlots(a: seq<Slot>, m: seq<Slot>, b: seq<Slot>, cells: seq<Cell>, slots: seq<Slot>,
      all: seq<Slot>)
    requires all == a + (m + b) && |all| <= |cells| && SlotsOfCells(cells[..|all|]) == all && |slots| <= |m|
    ensures SlotsOfCells(Overwrite(cells, |a|, slots)[..|all|]) == a + (slots + m[|slots|..] + b)
  {
    var r := SlotsOfCells(Overwrite(cells, |a|, slots)[..|all|]);
    var w := a + (slots + m[|slots|..] + b);
    forall q | 0 <= q < |all|
      ensures r[q] == w[q]
    {
      assert SlotsOfCells(cells[..|all|])[q] == cells[q].slot == all[q];
    }
  }

  /** The device d with entries `slots` written over the directory of `chain` from position start. */
  ghost predicate Rewritten(d: Disk, x: Disk, chain: seq<nat>, start: nat, slots: seq<Slot>) {
    && x.fat == d.fat && x.bits == d.bits && |x.heap| == |d.heap|
    && (forall c :: 0 <= c < |d.heap| ==> |x.heap[c]| == |d.heap[c]|)
    && (forall c :: 0 <= c < |d.heap| && c !in chain ==> x.heap[c] == d.heap[c])
    && InHeap(d.heap, chain) && InHeap(x.heap, chain)
    && DirCells(x.heap, chain) == Overwrite(DirCells(d.heap, chain), start, slots)
  }

  lemma {:induction false} RewrittenNone(d: Disk, chain: seq<nat>, start: nat)
    requires InHeap(d.heap, chain)
    ensures Rewritten(d, d, chain, start, [])
  {
    assert Overwrite(DirCells(d.heap, chain), start, []) == DirCells(d.heap, chain);
  }

  /** One more entry of a set written. */
  lemma {:induction false} RewrittenNext(geo: Geo, d: Disk, x: Disk, chain: seq<nat>, start: nat, slots: seq<Slot>,
      k: nat)
    requires k < |slots| && Rewritten(d, x, chain, start, slots[..k])
    requires Covers(d.heap, chain, geo.Slots()) && Distinct(chain) && geo.spc > 0
    requires start + |slots| <= |DirCells(d.heap, chain)|
    ensures
      var l := DirCells(d.heap, chain)[start + k].loc;
      && l.clus < |x.heap| && 32 * l.idx + 32 <= |x.heap[l.clus]| == geo.ClusBytes()
      && SlotAt(x.heap[l.clus], l.idx) == DirCells(d.heap, chain)[start + k].slot
      && Rewritten(d, x.(heap := WithSlot(x.heap, l, slots[k])), chain, start, slots[..k + 1])
  {
    var cells := DirCells(d.heap, chain);
    var q := start + k;
    assert Covers(x.heap, chain, geo.Slots());
    assert DirCells(x.heap, chain)[q] == cells[q];
    CellWrite(x.heap, chain, geo.Slots(), q, slots[k]);
    CellSlot(x.heap, chain, geo.Slots(), q);
    OverwriteNext(cells, start, slots, k);
    hide DirCells, Overwrite;
  }

  lemma {:induction false} CellSlot(heap: Heap, chain: seq<nat>, k: nat, q: nat)
    requires InHeap(heap, chain) && Covers(heap, chain, k) && q < |DirCells(heap, chain)| && k > 0
    ensures
      var c := DirCells(heap, chain)[q];
      && c.loc.clus in chain && c.loc.clus < |heap| && c.loc.idx < k && 32 * c.loc.idx + 32 <= |heap[c.loc.clus]|
      && c.slot == SlotAt(heap[c.loc.clus], c.loc.idx)
  {
    hide ClusterCells, DirCells;
    DirCellsSize(heap, chain, k);
    var ci, j := RowOf(q, k, |chain|);
    DirCellAt(heap, chain, k, ci, j);
  }

  // ---- States that keep showing the tree -----------------------------------------

  /** Changes outside a directory's clusters and links do not hide it. */
  lemma {:induction false} ShowsDirFrame(x: Disk, y: Disk, chain: seq<nat>, dir: Dir)
    requires ShowsDir(x, chain, dir) && |y.fat| == |x.fat| == |y.heap|
    requires forall i :: 0 <= i < |chain| - 1 && chain[i] < |x.fat| ==> y.fat[chain[i]] == x.fat[chain[i]]
    requires forall i :: 0 <= i < |chain| && chain[i] < |x.heap| ==> y.heap[chain[i]] == x.heap[chain[i]]
    ensures ShowsDir(y, chain, dir)
  {
    var items, dir' :| ShowsItems(x, chain, items) && Reads(items, dir') && SimilarAll(dir, dir');
    DirCellsFrame(x.heap, y.heap, chain);
    assert ShowsItems(y, chain, items);
  }

  lemma {:induction false} SimilarRefl(dir: Dir)
    ensures SimilarAll(dir, dir)
  {
  }

  /** Any directory of a consistent volume shows itself. */
  lemma {:induction false} DirShows(x: Disk, chain: seq<nat>, items: seq<Item>, dir: Dir)
    requires PathOf(x.fat, chain) && |x.heap| == |x.fat| && DirOk(x.heap, chain, items, dir)
    ensures ShowsDir(x, chain, dir)
  {
    assert ShowsItems(x, chain, items);
    SimilarRefl(dir);
  }

  /** A directory whose item i reads as a similar entry shows the directory. */
  lemma {:induction false} EditShows(d: Disk, x: Disk, chain: seq<nat>, items: seq<Item>, dir: Dir, i: nat,
      slots: seq<Slot>, it: Item, e: Option<Entry>)
    requires PathOf(x.fat, chain) && |x.heap| == |x.fat|
    requires InHeap(d.heap, chain) && DirHolds(d.heap, chain, items) && Reads(items, dir) && i < |items|
    requires |slots| <= |SlotsOf(items[i])| && SlotsOf(it) == slots + SlotsOf(items[i])[|slots|..]
    requires Rewritten(d, x, chain, ItemStart(items, i), slots)
    requires ItemOk(it) && (it.Live? <==> e.Some?) && (it.Live? ==> EntryOf(it.ents) == e.value)
    ensures ShowsItems(x, chain, items[i := it])
    ensures Reads(items[i := it], dir[i := e])
  {
    hide EntryOf, ItemOk, ClusterCells;
    OverwriteItem(items, DirCells(d.heap, chain), i, slots, it);
  }

  /** The same edit once complete: the directory holds the new item. */
  lemma {:induction false} EditHolds(d: Disk, x: Disk, chain: seq<nat>, items: seq<Item>, i: nat, slots: seq<Slot>,
      it: Item)
    requires InHeap(d.heap, chain) && DirHolds(d.heap, chain, items) && i < |items|
    requires |slots| <= |SlotsOf(items[i])| && SlotsOf(it) == slots + SlotsOf(items[i])[|slots|..]
    requires Rewritten(d, x, chain, ItemStart(items, i), slots) && ItemOk(it)
    ensures InHeap(x.heap, chain) && DirHolds(x.heap, chain, items[i := it])
  {
    hide ItemOk, ClusterCells;
    var cells := DirCells(d.heap, chain);
    OverwriteItem(items, cells, i, slots, it);
    ItemSpan(items, i);
    var n := |AllSlots(items)|;
    if n < |cells| {
      assert Overwrite(cells, ItemStart(items, i), slots)[n] == cells[n];
    }
  }

  // ---- Half-written sets -----------------------------------------------------------

  /** The first m entries of one set followed by the rest of another. */
  function Mixed(a: seq<Slot>, b: seq<Slot>, m: nat): (r: seq<Slot>)
    requires |a| == |b| && m <= |a|
    ensures |r| == |a|
  {
    a[..m] + b[m..]
  }

  /** While a set's length is being rewritten, the set reads as before or as after. */
  lemma {:induction false} MixedSize(ents: seq<Slot>, size: nat, m: nat)
    requires SetOk(ents) && size < TWO64 && m <= |ents|
    ensures
      var r := Mixed(WithSize(ents, size), ents, m);
      && SetShape(r)
      && (EntryOf(r) == EntryOf(ents) || EntryOf(r) == EntryOf(ents).(size := size))
  {
    var after := WithSize(ents, size);
    var r := Mixed(after, ents, m);
    WithSizeDecodes(ents, size);
    WithSizeSlots(ents, size);
    hide WithSize, PutAll, NameUnits, SetChecksum;
    if m == 0 {
      assert r == ents;
    } else if m == 1 {
      assert r == [after[0]] + ents[1..];
      assert r[1] == ents[1] && r[2..] == ents[2..];
      assert forall k :: 1 <= k < |r| ==> r[k] == ents[k];
    } else {
      assert r == after;
    }
  }

  lemma {:induction false} WithSizeSlots(ents: seq<Slot>, size: nat)
    requires SetOk(ents) && size < TWO64
    ensures
      var after := WithSize(ents, size);
      && |after| == |ents| && (forall k :: 2 <= k < |ents| ==> after[k] == ents[k])
      && (forall i :: 0 <= i < 32 && i != 2 && i != 3 ==> after[0][i] == ents[0][i])
  {
    var raw := ents[1 := WithSize(ents, size)[1]];
    hide SetChecksum;
    SpliceAt(ents[0], 2, Le16(SetChecksum(raw)));
  }

  function RetiredAll(ents: seq<Slot>): (r: seq<Slot>)
    ensures |r| == |ents|
  {
    seq(|ents|, k requires 0 <= k < |ents| => Retired(ents[k]))
  }

  /** Once its File entry is retired, a set is passed over, however many more entries are retired. */
  lemma {:induction false} MixedRetired(ents: seq<Slot>, m: nat)
    requires SetOk(ents) && 0 < m <= |ents|
    ensures ItemOk(Dead(Mixed(RetiredAll(ents), ents, m)))
  {
    var r := Mixed(RetiredAll(ents), ents, m);
    forall k | 0 <= k < |r|
      ensures Inert(r[k])
    {
      if k < m {
        var t: nat := ents[k][0];
        assert r[k] == Retired(ents[k]) && t in {0x85, 0xC0, 0xC1};
      } else {
        assert r[k] == ents[k];
      }
    }
  }

  /** A directory as the driver carries it around: its first cluster and, below the root, its
      recorded length and the places of its own entry set in the parent. */
  datatype DirRef = DirRef(first: nat, allocBytes: nat, isRoot: bool, n: nat, locs: seq<Loc>)

  /** An item's entries, found at the given places. */
  ghost predicate PlacedAt(cells: seq<Cell>, items: seq<Item>, i: nat, n: nat, locs: seq<Loc>) {
    && i < |items| && items[i].Live? && SetOk(items[i].ents) && n == |items[i].ents|
    && ItemStart(items, i) + n <= |cells|
    && locs == LocsOf(cells)[ItemStart(items, i)..ItemStart(items, i) + n]
  }

  ghost predicate RefTo(geo: Geo, heap: Heap, t: Tree, lay: Layout, dr: DirRef) {
    && dr.first in t.dirs && (dr.isRoot <==> dr.first == geo.root)
    && (!dr.isRoot ==>
          && dr.first in t.refs && EntryAt(t, t.refs[dr.first].0, t.refs[dr.first].1)
          && t.refs[dr.first].0 in t.own && t.refs[dr.first].0 in lay
          && InHeap(heap, t.own[t.refs[dr.first].0].chain)
          && PlacedAt(DirCells(heap, t.own[t.refs[dr.first].0].chain), lay[t.refs[dr.first].0],
                      t.refs[dr.first].1, dr.n, dr.locs)
          && dr.allocBytes == EntAt(t, t.refs[dr.first].0, t.refs[dr.first].1).size)
  }

  /** A place in a walked directory: the entry read there is the item's own. */
  lemma {:induction false} PlacedSlot(geo: Geo, heap: Heap, chain: seq<nat>, items: seq<Item>, i: nat, n: nat,
      locs: seq<Loc>, k: nat)
    requires InHeap(heap, chain) && Covers(heap, chain, geo.Slots()) && geo.spc > 0
    requires DirHolds(heap, chain, items) && PlacedAt(DirCells(heap, chain), items, i, n, locs) && k < n
    ensures |locs| == n
    ensures
      var l := locs[k];
      && l == DirCells(heap, chain)[ItemStart(items, i) + k].loc
      && DirCells(heap, chain)[ItemStart(items, i) + k].slot == items[i].ents[k]
      && l.clus < |heap| && 32 * l.idx + 32 <= |heap[l.clus]| == geo.ClusBytes()
      && SlotAt(heap[l.clus], l.idx) == items[i].ents[k]
  {
    hide SetOk, ClusterCells;
    var cells, a := DirCells(heap, chain), ItemStart(items, i);
    ItemSpan(items, i);
    CellSlot(heap, chain, geo.Slots(), a + k);
    assert SlotsOfCells(cells[..|AllSlots(items)|])[a + k] == cells[a + k].slot;
    assert AllSlots(items)[a..a + n][k] == AllSlots(items)[a + k];
    assert locs[k] == LocsOf(cells)[a + k];
  }

  /** Item i of a directory, with the places of its entries known. */
  ghost predicate Editable(geo: Geo, heap: Heap, chain: seq<nat>, items: seq<Item>, i: nat, n: nat, locs: seq<Loc>) {
    && geo.spc > 0 && Distinct(chain) && InHeap(heap, chain) && Covers(heap, chain, geo.Slots())
    && DirHolds(heap, chain, items) && PlacedAt(DirCells(heap, chain), items, i, n, locs)
  }

  lemma {:induction false} EditableSet(geo: Geo, heap: Heap, chain: seq<nat>, items: seq<Item>, i: nat, n: nat,
      locs: seq<Loc>)
    requires Editable(geo, heap, chain, items, i, n, locs)
    ensures InHeap(heap, chain) && i < |items| && items[i].Live? && SetOk(items[i].ents)
      && n == |items[i].ents| == |locs| <= MAX_SET
  {
  }

  /** The k-th entry of the set is still the original one, and writing it extends the rewrite. */
  lemma {:induction false} EditStep(geo: Geo, d: Disk, x: Disk, chain: seq<nat>, items: seq<Item>, i: nat, n: nat,
      locs: seq<Loc>, slots: seq<Slot>, k: nat)
    requires Editable(geo, d.heap, chain, items, i, n, locs) && |slots| == n && k < n
    requires Rewritten(d, x, chain, ItemStart(items, i), slots[..k])
    ensures k < |locs| && i < |items| && items[i].Live? && k < |items[i].ents|
    ensures
      var l := locs[k];
      && l.clus < |x.heap| && 32 * l.idx + 32 <= |x.heap[l.clus]| == geo.ClusBytes()
      && SlotAt(x.heap[l.clus], l.idx) == items[i].ents[k]
      && Rewritten(d, x.(heap := WithSlot(x.heap, l, slots[k])), chain, ItemStart(items, i), slots[..k + 1])
  {
    hide DirCells, SetOk;
    PlacedSlot(geo, d.heap, chain, items, i, n, locs, k);
    RewrittenNext(geo, d, x, chain, ItemStart(items, i), slots, k);
  }

  /** The states of a rewrite in progress: after m writes the first m entries are new. */
  ghost predicate EditTrace(d: Disk, before: seq<Disk>, tr: seq<Disk>, chain: seq<nat>, start: nat, slots: seq<Slot>,
      k: nat) {
    && k <= |slots| && |tr| == |before| + k && tr[..|before|] == before
    && forall m :: 0 < m <= k ==> Rewritten(d, tr[|before| + m - 1], chain, start, slots[..m])
  }

  lemma {:induction false} EditTraceNone(d: Disk, before: seq<Disk>, chain: seq<nat>, start: nat, slots: seq<Slot>)
    ensures EditTrace(d, before, before, chain, start, slots, 0)
  {
  }

  lemma {:induction false} EditTraceNext(d: Disk, before: seq<Disk>, tr: seq<Disk>, x: Disk, chain: seq<nat>,
      start: nat, slots: seq<Slot>, k: nat)
    requires EditTrace(d, before, tr, chain, start, slots, k) && k < |slots|
    requires Rewritten(d, x, chain, start, slots[..k + 1])
    ensures EditTrace(d, before, tr + [x], chain, start, slots, k + 1)
  {
    hide Rewritten;
  }
}
