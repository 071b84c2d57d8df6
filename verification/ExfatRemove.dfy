/** Retiring an entry set: deletion, and the second half of a rename. */
module ExfatRemove {
  import opened Arith
  import opened Bytes
  import opened ExfatNames
  import opened ExfatEntrySet
  import opened ExfatScan
  import opened ExfatSpace
  import opened ExfatHeap
  import opened ExfatTree
  import opened ExfatLayout
  import opened ExfatEdit
  import opened ExfatGrow
  import opened ExfatAppend
  import opened ExfatOps
  import opened ExfatStream

  function RetiredItem(it: Item): Item
    requires it.Live?
  {
    Dead(RetiredAll(it.ents))
  }

  lemma {:induction false} RetiredItemOk(it: Item)
    requires it.Live? && SetOk(it.ents)
    ensures ItemOk(RetiredItem(it))
  {
    MixedRetired(it.ents, |it.ents|);
    assert Mixed(RetiredAll(it.ents), it.ents, |it.ents|) == RetiredAll(it.ents);
  }

  lemma {:induction false} ReadsRetired(items: seq<Item>, dir: Dir, i: nat, it: Item)
    requires Reads(items, dir) && Checked(items) && i < |items| && ItemOk(it) && it.Dead?
    ensures Reads(items[i := it], dir[i := None]) && Checked(items[i := it])
  {
    hide EntryOf, SetOk, ItemOk;
  }

  /** A directory with one set retired holds the other entries and a hole. */
  lemma {:induction false} RetiredHolds(x: Disk, y: Disk, chain: seq<nat>, items: seq<Item>, dir: Dir, i: nat)
    requires InHeap(x.heap, chain) && DirHolds(x.heap, chain, items) && Reads(items, dir) && Checked(items)
    requires i < |items| && items[i].Live?
    requires Rewritten(x, y, chain, ItemStart(items, i), RetiredAll(items[i].ents))
    ensures DirOk(y.heap, chain, items[i := RetiredItem(items[i])], dir[i := None])
  {
    var it := RetiredItem(items[i]);
    assert SetOk(items[i].ents);
    RetiredItemOk(items[i]);
    ReadsRetired(items, dir, i, it);
    hide SetOk, ItemOk, EntryOf, DirHolds, Rewritten, Reads, Checked, RetiredAll;
    EditHolds(x, y, chain, items, i, RetiredAll(items[i].ents), it);
  }

  // ---- Deletion ----------------------------------------------------------------

  /** The layout after entry i of directory d is retired and the owner it named is gone. */
  ghost function DetachedLay(t: Tree, lay: Layout, d: nat, i: nat): Layout
    requires EntryAt(t, d, i) && d in lay && i < |lay[d]| && lay[d][i].Live?
  {
    var f := EntAt(t, d, i).first;
    var lay' := lay[d := lay[d][i := RetiredItem(lay[d][i])]];
    if f == 0 || f !in t.own then lay' else lay' - {f}
  }

  /** The device after the clusters an entry names are released. */
  function Released(x: Disk, t: Tree, first: nat): Disk {
    if first in t.own then Freed(x, t.own[first].chain) else x
  }

  lemma {:induction false} NotOwnChild(geo: Geo, t: Tree, d: nat, i: nat)
    requires RefsOk(geo, t) && EntryAt(t, d, i)
    ensures EntryOk(geo, t, d, i) && EntAt(t, d, i).first != d
  {
    var f := EntAt(t, d, i).first;
    assert EntryOk(geo, t, d, i);
    if f != 0 {
      assert RefOk(geo, t, f);
    }
  }

  lemma {:induction false} DetachedParts(t: Tree, d: nat, i: nat)
    requires EntryAt(t, d, i) && EntAt(t, d, i).first != d && (EntAt(t, d, i).first == 0 ==> 0 !in t.own)
    ensures
      var f, t' := EntAt(t, d, i).first, Detached(t, d, i);
      && (f !in t.own ==> t'.own == t.own && t'.at == t.at)
      && (f in t.own ==> t'.own == t.own - {f} && t'.at == t.at - (set c | c in t.own[f].chain))
      && (forall k <- t'.dirs :: k in t.dirs && (f in t.own ==> k != f))
      && d in t'.dirs && t'.dirs[d] == t.dirs[d][i := None]
      && (forall k <- t'.dirs :: k != d ==> t'.dirs[k] == t.dirs[k])
      && t'.loose == t.loose
  {
  }

  lemma {:induction false} DetachSpace(geo: Geo, x: Disk, y: Disk, t: Tree, d: nat, i: nat, chain: seq<nat>,
      start: nat, slots: seq<Slot>)
    requires SpaceOk(geo, x, t.own, t.at) && EntryAt(t, d, i) && EntAt(t, d, i).first != d && 0 !in t.own
    requires Rewritten(Released(x, t, EntAt(t, d, i).first), y, chain, start, slots)
    ensures SpaceOk(geo, y, Detached(t, d, i).own, Detached(t, d, i).at)
  {
    DetachedParts(t, d, i);
    hide SpaceOk, Detached, Freed;
    var f := EntAt(t, d, i).first;
    if f in t.own {
      SpaceFree(geo, x, t.own, t.at, f);
    }
    var t' := Detached(t, d, i);
    SpaceHeap(geo, Released(x, t, f), y, t'.own, t'.at);
  }

  /** Deleting an entry keeps the volume consistent, even when the directory it names is not empty. */
  lemma {:induction false} SeverInv(geo: Geo, x: Disk, y: Disk, t: Tree, lay: Layout, d: nat, i: nat)
    requires Inv(geo, x, t, lay) && EntryAt(t, d, i)
    requires d in t.own && d in lay && i < |lay[d]| && lay[d][i].Live?
    requires
      Rewritten(Released(x, t, EntAt(t, d, i).first), y, t.own[d].chain, ItemStart(lay[d], i),
        RetiredAll(lay[d][i].ents))
    ensures Inv(geo, y, Severed(t, d, i), DetachedLay(t, lay, d, i))
  {
    hide Inv, SpaceOk, RefsOk, LayoutOk, EntryOk, Rewritten, Detached, Severed, DetachedLay, RetiredAll;
    InvParts(geo, x, t, lay);
    NotOwnChild(geo, t, d, i);
    SeverKeepsRefs(geo, t, d, i);
    SeveredParts(t, d, i);
    DetachSpace(geo, x, y, t, d, i, t.own[d].chain, ItemStart(lay[d], i), RetiredAll(lay[d][i].ents));
    DetachLayout(geo, x, y, t, lay, d, i);
    LayoutSame(y.heap, Detached(t, d, i), Severed(t, d, i), DetachedLay(t, lay, d, i));
    InvIntro(geo, y, Severed(t, d, i), DetachedLay(t, lay, d, i));
  }

  lemma {:induction false} SeveredParts(t: Tree, d: nat, i: nat)
    requires EntryAt(t, d, i)
    ensures
      var t1, t' := Detached(t, d, i), Severed(t, d, i);
      t'.own == t1.own && t'.at == t1.at && t'.dirs == t1.dirs && t'.loose == t1.loose && t'.depth == t1.depth
  {
  }

  lemma {:induction false} LayoutSame(heap: Heap, t: Tree, t': Tree, lay: Layout)
    requires LayoutOk(heap, t, lay) && t'.dirs == t.dirs && t'.own == t.own
    ensures LayoutOk(heap, t', lay)
  {
    hide DirOk;
  }

  lemma {:induction false} DetachLayout(geo: Geo, x: Disk, y: Disk, t: Tree, lay: Layout, d: nat, i: nat)
    requires SpaceOk(geo, x, t.own, t.at) && LayoutOk(x.heap, t, lay) && EntryAt(t, d, i)
    requires EntAt(t, d, i).first != d && 0 !in t.own
    requires d in t.own && d in lay && i < |lay[d]| && lay[d][i].Live?
    requires Rewritten(Released(x, t, EntAt(t, d, i).first), y, t.own[d].chain, ItemStart(lay[d], i),
      RetiredAll(lay[d][i].ents))
    requires EntAt(t, d, i).first in t.dirs ==> EntAt(t, d, i).first in t.own
    ensures LayoutOk(y.heap, Detached(t, d, i), DetachedLay(t, lay, d, i))
  {
    hide SpaceOk, LayoutOk, DirOk, Rewritten, RetiredAll, Detached, DetachedLay;
    DetachedParts(t, d, i);
    DetachedLayParts(t, lay, d, i);
    LayoutDirs(x.heap, t, lay);
    var t', lay' := Detached(t, d, i), DetachedLay(t, lay, d, i);
    DetachedKeys(t, lay, d, i);
    forall k | k in t'.dirs
      ensures k in t'.own && DirOk(y.heap, t'.own[k].chain, lay'[k], t'.dirs[k])
    {
      if k == d {
        RetiredDir(Released(x, t, EntAt(t, d, i).first), y, t.own[d].chain, lay[d], t.dirs[d], i);
      } else {
        OtherOwners(geo, x, t.own, t.at, d, k);
        RewrittenFrame(Released(x, t, EntAt(t, d, i).first), y, t.own[d].chain, ItemStart(lay[d], i),
          RetiredAll(lay[d][i].ents));
        DirOkFrame(x.heap, y.heap, t.own[k].chain, lay[k], t.dirs[k]);
      }
    }
    LayoutIntro(y.heap, t', lay');
  }

  lemma {:induction false} LayoutIntro(heap: Heap, t: Tree, lay: Layout)
    requires lay.Keys == t.dirs.Keys
    requires forall k <- t.dirs :: k in t.own && DirOk(heap, t.own[k].chain, lay[k], t.dirs[k])
    ensures LayoutOk(heap, t, lay)
  {
    hide DirOk;
  }

  lemma {:induction false} LayoutDirs(heap: Heap, t: Tree, lay: Layout)
    requires LayoutOk(heap, t, lay)
    ensures lay.Keys == t.dirs.Keys
    ensures forall k <- t.dirs ::
      && k in t.own && DirOk(heap, t.own[k].chain, lay[k], t.dirs[k])
      && InHeap(heap, t.own[k].chain)
  {
    forall k | k in t.dirs
      ensures k in t.own && DirOk(heap, t.own[k].chain, lay[k], t.dirs[k]) && InHeap(heap, t.own[k].chain)
    {
      assert DirOk(heap, t.own[k].chain, lay[k], t.dirs[k]);
    }
  }

  lemma {:induction false} RetiredDir(x: Disk, y: Disk, chain: seq<nat>, items: seq<Item>, dir: Dir, i: nat)
    requires DirOk(x.heap, chain, items, dir)
    requires i < |items| && items[i].Live?
    requires Rewritten(x, y, chain, ItemStart(items, i), RetiredAll(items[i].ents))
    ensures DirOk(y.heap, chain, items[i := RetiredItem(items[i])], dir[i := None])
  {
    hide DirHolds, Reads, Checked, Rewritten, RetiredAll;
    RetiredHolds(x, y, chain, items, dir, i);
  }

  lemma {:induction false} DetachedLayParts(t: Tree, lay: Layout, d: nat, i: nat)
    requires EntryAt(t, d, i) && d in lay && i < |lay[d]| && lay[d][i].Live? && EntAt(t, d, i).first != d
    ensures
      var f, lay' := EntAt(t, d, i).first, DetachedLay(t, lay, d, i);
      && d in lay' && lay'[d] == lay[d][i := RetiredItem(lay[d][i])]
      && (forall k <- lay' :: k in lay && (k != d ==> lay'[k] == lay[k]))
  {
    hide RetiredAll;
  }

  /** Every directory that is left has as many entry slots in use as before. */
  ghost predicate SlotsKept(lay: Layout, lay': Layout) {
    forall k <- lay' :: k in lay && |AllSlots(lay'[k])| == |AllSlots(lay[k])|
  }

  lemma {:induction false} SlotsSame(lay: Layout)
    ensures SlotsKept(lay, lay)
  {
  }

  lemma {:induction false} SlotsReplaced(items: seq<Item>, i: nat, it: Item)
    requires i < |items| && |SlotsOf(it)| == |SlotsOf(items[i])|
    ensures |AllSlots(items[i := it])| == |AllSlots(items)|
  {
    if i > 0 {
      assert items[i := it][1..] == items[1..][i - 1 := it];
      SlotsReplaced(items[1..], i - 1, it);
    } else {
      assert items[i := it][1..] == items[1..];
    }
  }

  lemma {:induction false} DetachedSlots(t: Tree, lay: Layout, d: nat, i: nat)
    requires EntryAt(t, d, i) && d in lay && i < |lay[d]| && lay[d][i].Live? && EntAt(t, d, i).first != d
    ensures SlotsKept(lay, DetachedLay(t, lay, d, i))
  {
    DetachedLayParts(t, lay, d, i);
    hide DetachedLay, RetiredAll, AllSlots;
    SlotsReplaced(lay[d], i, RetiredItem(lay[d][i]));
  }

  lemma {:induction false} DetachedKeys(t: Tree, lay: Layout, d: nat, i: nat)
    requires EntryAt(t, d, i) && d in lay && i < |lay[d]| && lay[d][i].Live? && lay.Keys == t.dirs.Keys
    ensures DetachedLay(t, lay, d, i).Keys == Detached(t, d, i).dirs.Keys
  {
    hide RetiredAll;
  }

  /** Entry i of directory d retired on the device: exactly the clusters of its owner are free, and
      bytes changed only in the clusters of directory d. */
  ghost predicate GoneFrom(x: Disk, t: Tree, y: Disk, d: nat, i: nat)
    requires EntryAt(t, d, i)
  {
    && d in t.own
    && exists start, slots :: Rewritten(Released(x, t, EntAt(t, d, i).first), y, t.own[d].chain, start, slots)
  }

  lemma {:induction false} NoOwnerZero(geo: Geo, t: Tree)
    requires RefsOk(geo, t)
    ensures 0 !in t.own
  {
  }

  lemma {:induction false} LooseApart(geo: Geo, t: Tree, d: nat, i: nat)
    requires RefsOk(geo, t) && EntryAt(t, d, i)
    ensures t.loose <= t.own.Keys && EntAt(t, d, i).first !in t.loose
  {
    RefsEntry(geo, t, d, i);
    hide EntriesOk;
    var f := EntAt(t, d, i).first;
    if f != 0 {
      assert RefOk(geo, t, f);
    }
  }

  lemma {:induction false} StreamFile(geo: Geo, h: Heap, t: Tree, s: Stream, data: seq<Byte>)
    requires StreamOk(geo, h, t, s, data)
    ensures forall k <- t.loose :: k !in t.dirs
  {
    hide ChainBytes;
  }

  lemma {:induction false} GoneBytes(x: Disk, t: Tree, y: Disk, d: nat, i: nat)
    requires EntryAt(t, d, i) && GoneFrom(x, t, y, d, i)
    ensures d in t.own
    ensures |y.heap| == |x.heap| && forall c :: 0 <= c < |x.heap| && c !in t.own[d].chain ==> y.heap[c] == x.heap[c]
  {
    var start, slots :| Rewritten(Released(x, t, EntAt(t, d, i).first), y, t.own[d].chain, start, slots);
    RewrittenFrame(Released(x, t, EntAt(t, d, i).first), y, t.own[d].chain, start, slots);
  }

  // ---- What a deletion leaves behind -------------------------------------------------------

  /** The clusters of an entry that its deletion does not reach: the driver counts the clusters of a
      contiguous file in 32 bits. */
  function Left(geo: Geo, t: Tree, e: Entry): (run: seq<nat>)
    requires geo.ClusBytes() > 0
  {
    if e.first in t.own && e.contig then
      var chain, n := t.own[e.first].chain, FreeCount(geo, e.size);
      if n <= |chain| then chain[n..] else []
    else []
  }

  /** A run without a name stays behind as an orphan. */
  function Kept(t: Tree, run: seq<nat>): Tree {
    if run == [] then t
    else t.(own := t.own[run[0] := Owner(run, true)], at := t.at + RunPlaces(run), orphans := t.orphans + {run[0]})
  }

  /** The tree without entry i of directory d. */
  function Without(geo: Geo, t: Tree, d: nat, i: nat): Tree
    requires EntryAt(t, d, i) && geo.ClusBytes() > 0
  {
    Kept(Severed(t, d, i), Left(geo, t, EntAt(t, d, i)))
  }

  /** Entry i of directory d is deleted: its set is retired and its clusters are free, except those the
      deletion does not reach, which stay marked. */
  ghost predicate Unlinked(geo: Geo, x: Disk, t: Tree, y: Disk, t': Tree, d: nat, i: nat)
    requires EntryAt(t, d, i) && geo.ClusBytes() > 0
  {
    var rest := Left(geo, t, EntAt(t, d, i));
    && t' == Without(geo, t, d, i) && GoneFrom(x, t, Freed(y, rest), d, i)
    && |y.bits| == |x.bits| && |y.fat| == |x.fat|
    && forall c <- rest :: c < |y.bits| && c < |y.fat| && y.bits[c] && y.fat[c] == x.fat[c]
  }

  /** The driver frees all clusters of every entry but a contiguous one longer than 4 GiB less one cluster. */
  lemma {:induction false} LeftNothing(geo: Geo, t: Tree, d: nat, i: nat)
    requires geo.Valid() && RefsOk(geo, t) && EntryAt(t, d, i)
    requires EntAt(t, d, i).first in t.own ==> t.own[EntAt(t, d, i).first].chain != []
    ensures
      var e := EntAt(t, d, i);
      && (e.first in t.own && e.contig ==> FreeCount(geo, e.size) <= |t.own[e.first].chain|)
      && (Left(geo, t, e) == [] <==> e.first !in t.own || !e.contig || e.size <= TWO32 - geo.ClusBytes())
  {
    hide FreeCount;
    var e := EntAt(t, d, i);
    if e.first in t.own && e.contig {
      RunSize(geo, t, d, i);
      CountBound(geo, e.size, |t.own[e.first].chain|);
    }
  }

  lemma {:induction false} RunSize(geo: Geo, t: Tree, d: nat, i: nat)
    requires RefsOk(geo, t) && EntryAt(t, d, i) && EntAt(t, d, i).first in t.own && EntAt(t, d, i).contig
    ensures
      var e := EntAt(t, d, i);
      var bytes := |t.own[e.first].chain| * geo.ClusBytes();
      !e.isDir && bytes - geo.ClusBytes() < e.size <= bytes
  {
    RefsEntry(geo, t, d, i);
    NoOwnerZero(geo, t);
    var e := EntAt(t, d, i);
    if e.isDir {
      DirsChained(geo, t, e.first);
    }
    hide RefsOk;
  }

  lemma {:induction false} DirsChained(geo: Geo, t: Tree, k: nat)
    requires RefsOk(geo, t) && k in t.dirs
    ensures k in t.own && !t.own[k].contig
  {
    hide EntriesOk;
  }

  lemma {:induction false} CountBound(geo: Geo, size: nat, n: nat)
    requires geo.Valid() && n * geo.ClusBytes() - geo.ClusBytes() < size <= n * geo.ClusBytes() && n > 0
    ensures FreeCount(geo, size) <= n
    ensures FreeCount(geo, size) == n <==> size <= TWO32 - geo.ClusBytes()
  {
    hide FreeCount, ClustersFor;
    FreeCountExact(geo, size);
    ClustersExact(geo, size, n);
    FreeCountBelow(geo, size);
  }

  lemma {:induction false} FreeCountBelow(geo: Geo, size: nat)
    requires geo.Valid()
    ensures FreeCount(geo, size) <= ClustersFor(geo, size)
  {
    hide Div;
    DivMono((size % TWO32 + (geo.ClusBytes() - 1)) % TWO32, size + (geo.ClusBytes() - 1), geo.ClusBytes());
  }

  /** What stays behind is consistent. */
  lemma {:induction false} KeptInv(geo: Geo, y: Disk, t: Tree, lay: Layout, run: seq<nat>)
    requires DiskOk(geo, y) && Inv(geo, Freed(y, run), t, lay)
    requires run != [] ==> IsRun(run) && forall c <- run :: 2 <= c < geo.Total() && c !in geo.system && y.bits[c]
    ensures Inv(geo, y, Kept(t, run), lay)
    ensures run != [] ==> run[0] !in t.own
  {
    hide Inv, Freed, SpaceOk, LayoutOk, RefsOk, DiskOk, Kept;
    if run == [] {
      NothingFreed(y);
      KeptNothing(t);
    } else {
      FreedAt(y, run);
      InvParts(geo, Freed(y, run), t, lay);
      SpaceClaim(geo, y, t.own, t.at, run);
      KeptParts(t, run);
      KeptRefs(geo, t, run);
      KeptLayout(y.heap, t, lay, run);
      InvIntro(geo, y, Kept(t, run), lay);
    }
  }

  lemma {:induction false} KeptNothing(t: Tree)
    ensures Kept(t, []) == t
  {
  }

  lemma {:induction false} KeptParts(t: Tree, run: seq<nat>)
    requires run != []
    ensures
      var t' := Kept(t, run);
      && t'.own == t.own[run[0] := Owner(run, true)] && t'.at == t.at + RunPlaces(run)
      && t'.dirs == t.dirs && t'.refs == t.refs && t'.loose == t.loose && t'.depth == t.depth
        && t'.orphans == t.orphans + {run[0]}
  {
  }

  lemma {:induction false} NothingFreed(y: Disk)
    ensures Freed(y, []) == y
  {
    assert FreedFat(y.fat, []) == y.fat;
    assert FreedBits(y.bits, []) == y.bits;
  }

  lemma {:induction false} KeptRefs(geo: Geo, t: Tree, run: seq<nat>)
    requires RefsOk(geo, t) && run != [] && run[0] !in t.own && run[0] >= 2
    ensures RefsOk(geo, Kept(t, run))
  {
    var t' := Kept(t, run);
    forall d, i | EntryAt(t', d, i)
      ensures EntryOk(geo, t', d, i)
    {
      assert EntryOk(geo, t, d, i);
    }
    forall k | k in t'.refs
      ensures RefOk(geo, t', k)
    {
      assert RefOk(geo, t, k);
    }
  }

  lemma {:induction false} KeptLayout(heap: Heap, t: Tree, lay: Layout, run: seq<nat>)
    requires LayoutOk(heap, t, lay) && run != [] && run[0] !in t.own
    ensures LayoutOk(heap, Kept(t, run), lay)
  {
    hide DirOk;
  }

  /** The clusters that a release reaches: all of a chain, and of a run as many as the driver counts. */
  function Reach(geo: Geo, t: Tree, first: nat, contig: bool, size: nat): (run: seq<nat>)
    requires geo.ClusBytes() > 0
  {
    if first !in t.own then []
    else if contig && FreeCount(geo, size) <= |t.own[first].chain| then t.own[first].chain[..FreeCount(geo, size)]
    else t.own[first].chain
  }

  function ReachOf(geo: Geo, t: Tree, e: Entry): seq<nat>
    requires geo.ClusBytes() > 0
  {
    Reach(geo, t, e.first, e.contig, e.size)
  }

  lemma {:induction false} ReachLeft(geo: Geo, t: Tree, e: Entry)
    requires geo.ClusBytes() > 0 && e.first in t.own
    ensures ReachOf(geo, t, e) + Left(geo, t, e) == t.own[e.first].chain
  {
  }

  lemma {:induction false} FreedTwice(x: Disk, a: seq<nat>, b: seq<nat>)
    ensures Freed(Freed(x, a), b) == Freed(x, a + b)
  {
    assert FreedFat(FreedFat(x.fat, a), b) == FreedFat(x.fat, a + b);
    assert FreedBits(FreedBits(x.bits, a), b) == FreedBits(x.bits, a + b);
  }

  /** As if the rest had been freed too. */
  lemma {:induction false} RewrittenFreed(x: Disk, y: Disk, chain: seq<nat>, start: nat, slots: seq<Slot>,
      rest: seq<nat>)
    requires Rewritten(x, y, chain, start, slots)
    ensures Rewritten(Freed(x, rest), Freed(y, rest), chain, start, slots)
  {
  }

  /** The rest of a run is a run of marked clusters. */
  lemma {:induction false} LeftRun(geo: Geo, x: Disk, t: Tree, d: nat, i: nat)
    requires geo.Valid() && SpaceOk(geo, x, t.own, t.at) && RefsOk(geo, t) && EntryAt(t, d, i)
    ensures
      var e := EntAt(t, d, i);
      var rest := Left(geo, t, e);
      && (rest != [] ==> IsRun(rest) && e.first in t.own)
      && forall c <- rest ::
        && 2 <= c < geo.Total() && c !in geo.system && c < |x.bits| && x.bits[c] && c < |x.fat|
        && c !in ReachOf(geo, t, e)
  {
    hide SpaceOk, RefsOk, FreeCount;
    var e := EntAt(t, d, i);
    if e.first in t.own && e.contig {
      EntryContig(geo, t, d, i);
      OwnerRun(geo, x, t.own, t.at, e.first);
      SpaceBits(geo, x, t.own, t.at);
      if FreeCount(geo, e.size) <= |t.own[e.first].chain| {
        RunSplit(t.own[e.first].chain, FreeCount(geo, e.size), t.at);
      }
    }
  }

  lemma {:induction false} OwnerRun(geo: Geo, x: Disk, own: Owners, at: Places, k: nat)
    requires SpaceOk(geo, x, own, at) && k in own && own[k].contig
    ensures IsRun(own[k].chain) && forall c <- own[k].chain :: c in at
  {
    hide DiskOk, Charted;
    var chain := own[k].chain;
    assert OwnerOk(x.fat, own[k]);
    hide OwnersOk;
    forall c | c in chain
      ensures c in at
    {
      var j :| 0 <= j < |chain| && chain[j] == c;
    }
  }

  /** The end of a run is a run, and nothing of it is at the front. */
  lemma {:induction false} RunSplit(run: seq<nat>, n: nat, at: Places)
    requires IsRun(run) && n <= |run| && forall c <- run :: c in at
    ensures run[n..] != [] ==> IsRun(run[n..])
    ensures forall c <- run[n..] :: c in at && c !in run[..n]
  {
    forall c | c in run[n..]
      ensures c in at && c !in run[..n]
    {
      var j :| 0 <= j < |run| - n && run[n..][j] == c;
      assert run[n + j] == c && c == run[0] + n + j;
    }
  }

  lemma {:induction false} EntryContig(geo: Geo, t: Tree, d: nat, i: nat)
    requires RefsOk(geo, t) && EntryAt(t, d, i) && EntAt(t, d, i).first in t.own
    ensures t.own[EntAt(t, d, i).first].contig == EntAt(t, d, i).contig
  {
    RefsEntry(geo, t, d, i);
    NoOwnerZero(geo, t);
    hide RefsOk;
  }

  lemma {:induction false} SpaceBits(geo: Geo, x: Disk, own: Owners, at: Places)
    requires SpaceOk(geo, x, own, at)
    ensures |x.bits| == |x.fat| == geo.Total()
      && forall c <- at ::
        && 2 <= c < geo.Total() && c !in geo.system && x.bits[c]
  {
  }

  /** The writes of a deletion keep the volume consistent, whatever they leave behind. */
  lemma {:induction false} UnlinkInv(geo: Geo, x: Disk, y: Disk, t: Tree, lay: Layout, d: nat, i: nat)
    requires Inv(geo, x, t, lay) && EntryAt(t, d, i)
    requires d in t.own && d in lay && i < |lay[d]| && lay[d][i].Live? && geo.ClusBytes() > 0
    requires
      Rewritten(Freed(x, ReachOf(geo, t, EntAt(t, d, i))), y, t.own[d].chain, ItemStart(lay[d], i),
        RetiredAll(lay[d][i].ents))
    ensures Inv(geo, y, Without(geo, t, d, i), DetachedLay(t, lay, d, i))
    ensures Unlinked(geo, x, t, y, Without(geo, t, d, i), d, i)
  {
    hide Inv, SpaceOk, RefsOk, LayoutOk, EntryOk, Rewritten, Severed, DetachedLay, RetiredAll, Freed, Kept, Left,
      ReachOf, DiskOk;
    var e := EntAt(t, d, i);
    var rest, reach := Left(geo, t, e), ReachOf(geo, t, e);
    var start, slots := ItemStart(lay[d], i), RetiredAll(lay[d][i].ents);
    InvParts(geo, x, t, lay);
    LeftRun(geo, x, t, d, i);
    RewrittenFreed(Freed(x, reach), y, t.own[d].chain, start, slots, rest);
    FreedTwice(x, reach, rest);
    ReleasedAll(geo, x, t, e);
    RewrittenDisk(geo, x, t, lay, y, reach, t.own[d].chain, start, slots);
    FreedAt(x, reach);
    SeverInv(geo, x, Freed(y, rest), t, lay, d, i);
    assert GoneFrom(x, t, Freed(y, rest), d, i);
    KeptInv(geo, y, Severed(t, d, i), DetachedLay(t, lay, d, i), rest);
  }

  lemma {:induction false} ReleasedAll(geo: Geo, x: Disk, t: Tree, e: Entry)
    requires geo.ClusBytes() > 0
    ensures Freed(x, ReachOf(geo, t, e) + Left(geo, t, e)) == Released(x, t, e.first)
  {
    if e.first in t.own {
      ReachLeft(geo, t, e);
    } else {
      NothingFreed(x);
    }
  }

  lemma {:induction false} RewrittenDisk(geo: Geo, x: Disk, t: Tree, lay: Layout, y: Disk, reach: seq<nat>,
      chain: seq<nat>, start: nat, slots: seq<Slot>)
    requires Inv(geo, x, t, lay) && Rewritten(Freed(x, reach), y, chain, start, slots)
    ensures DiskOk(geo, y) && y.bits == Freed(x, reach).bits && y.fat == Freed(x, reach).fat
  {
    FreedAt(x, reach);
    hide OwnersOk, Placed, Charted, LayoutOk, RefsOk;
  }

  // ---- What a deletion leaves alone --------------------------------------------------------

  /** The first of the clusters left behind starts no other owner. */
  lemma {:induction false} LeftHead(geo: Geo, x: Disk, t: Tree, d: nat, i: nat)
    requires geo.Valid() && SpaceOk(geo, x, t.own, t.at) && RefsOk(geo, t) && EntryAt(t, d, i)
    ensures
      var e := EntAt(t, d, i);
      var rest := Left(geo, t, e);
      rest != [] && rest[0] in t.own ==> rest[0] == e.first
  {
    hide RefsOk, FreeCount, DiskOk, Charted;
    var e := EntAt(t, d, i);
    var rest := Left(geo, t, e);
    if rest != [] && rest[0] in t.own {
      var chain, n := t.own[e.first].chain, FreeCount(geo, e.size);
      assert chain[n] == rest[0] == t.own[rest[0]].chain[0];
    }
  }

  lemma {:induction false} WithoutParts(geo: Geo, x: Disk, t: Tree, d: nat, i: nat)
    requires geo.Valid() && SpaceOk(geo, x, t.own, t.at) && RefsOk(geo, t) && EntryAt(t, d, i)
    ensures
      var t', f := Without(geo, t, d, i), EntAt(t, d, i).first;
      && t'.dirs == Detached(t, d, i).dirs && t'.loose == t.loose
      && (forall k <- t.own :: k != f ==> k in t'.own && t'.own[k] == t.own[k])
      && (forall k <- t'.dirs :: k in t.dirs && (f in t.own ==> k != f))
  {
    hide SpaceOk, RefsOk, Detached, Severed, Kept, Left;
    LeftHead(geo, x, t, d, i);
    NotOwnChild(geo, t, d, i);
    NoOwnerZero(geo, t);
    DetachedParts(t, d, i);
    SeveredParts(t, d, i);
    var rest := Left(geo, t, EntAt(t, d, i));
    if rest == [] {
      KeptNothing(Severed(t, d, i));
    } else {
      KeptParts(Severed(t, d, i), rest);
    }
  }

  /** Deleting entry i of directory d leaves clusters in use that nothing names: the end of a run behind the
      driver's count, or what a directory deleted by mistake held. */
  predicate LeavesOrphans(geo: Geo, t: Tree, d: nat, i: nat)
    requires EntryAt(t, d, i) && geo.ClusBytes() > 0
  {
    Left(geo, t, EntAt(t, d, i)) != [] || Children(t, EntAt(t, d, i).first) != {}
  }

  /** No deletion gives an owner its name back, and owners lose theirs exactly then. */
  lemma {:induction false} OrphansExact(geo: Geo, x: Disk, t: Tree, d: nat, i: nat)
    requires geo.Valid() && SpaceOk(geo, x, t.own, t.at) && RefsOk(geo, t) && EntryAt(t, d, i)
    ensures t.orphans <= Without(geo, t, d, i).orphans
    ensures Without(geo, t, d, i).orphans == t.orphans <==> !LeavesOrphans(geo, t, d, i)
  {
    hide SpaceOk, RefsOk, Detached, Severed, Kept, Left, Children;
    var e := EntAt(t, d, i);
    var rest := Left(geo, t, e);
    LeftHead(geo, x, t, d, i);
    NotOwnChild(geo, t, d, i);
    OrphansOwned(geo, t, e.first);
    SeveredOrphans(geo, t, d, i);
    if rest == [] {
      KeptNothing(Severed(t, d, i));
    } else {
      KeptParts(Severed(t, d, i), rest);
      OrphansOwned(geo, t, rest[0]);
    }
  }

  lemma {:induction false} OrphansOwned(geo: Geo, t: Tree, k: nat)
    requires RefsOk(geo, t)
    ensures k in t.orphans ==> k in t.own && k !in t.refs
  {
    hide EntriesOk;
  }

  lemma {:induction false} SeveredOrphans(geo: Geo, t: Tree, d: nat, i: nat)
    requires RefsOk(geo, t) && EntryAt(t, d, i)
    ensures t.orphans <= Severed(t, d, i).orphans
    ensures Severed(t, d, i).orphans == t.orphans <==> Children(t, EntAt(t, d, i).first) == {}
    ensures EntAt(t, d, i).first in t.own ==> EntAt(t, d, i).first in t.refs
    ensures Severed(t, d, i).orphans <= t.own.Keys
  {
    hide RefsOk, Detached;
    var f := EntAt(t, d, i).first;
    RefsEntry(geo, t, d, i);
    NoOwnerZero(geo, t);
    forall k | k in Children(t, f)
      ensures k !in t.orphans
    {
      ChildNamed(geo, t, f, k);
      OrphansOwned(geo, t, k);
    }
    forall k | k in t.orphans
      ensures k in t.own
    {
      OrphansOwned(geo, t, k);
    }
    DetachedOrphans(t, d, i);
    hide Children;
  }

  lemma {:induction false} DetachedOrphans(t: Tree, d: nat, i: nat)
    requires EntryAt(t, d, i)
    ensures Detached(t, d, i).orphans == t.orphans
  {
  }

  /** Bytes change only in the directory that held the entry. */
  lemma {:induction false} UnlinkedBytes(geo: Geo, x: Disk, t: Tree, y: Disk, t': Tree, d: nat, i: nat)
    requires EntryAt(t, d, i) && geo.ClusBytes() > 0 && Unlinked(geo, x, t, y, t', d, i)
    ensures d in t.own
    ensures |y.heap| == |x.heap| && forall c :: 0 <= c < |x.heap| && c !in t.own[d].chain ==> y.heap[c] == x.heap[c]
  {
    hide GoneFrom, Freed, Without;
    var rest := Left(geo, t, EntAt(t, d, i));
    FreedAt(y, rest);
    GoneBytes(x, t, Freed(y, rest), d, i);
  }

  /** An open stream does not notice a deletion. */
  lemma {:induction false} StreamUnlinked(geo: Geo, x: Disk, t: Tree, y: Disk, t': Tree, d: nat, i: nat, s: Stream,
      data: seq<Byte>)
    requires geo.Valid() && SpaceOk(geo, x, t.own, t.at) && RefsOk(geo, t) && EntryAt(t, d, i)
    requires Unlinked(geo, x, t, y, t', d, i) && StreamOk(geo, x.heap, t, s, data)
    ensures StreamOk(geo, y.heap, t', s, data)
  {
    hide SpaceOk, RefsOk, GoneFrom, StreamOk, Detached, Without, Left;
    UnlinkedBytes(geo, x, t, y, t', d, i);
    WithoutParts(geo, x, t, d, i);
    LooseApart(geo, t, d, i);
    StreamFile(geo, x.heap, t, s, data);
    DirListed(t, d, i);
    forall k | k in t.loose && k !in t.dirs
      ensures k in t.own && forall j :: 0 <= j < |t.own[k].chain| ==> t.own[k].chain[j] !in t.own[d].chain
    {
      OtherOwners(geo, x, t.own, t.at, d, k);
    }
    StreamKept(geo, x.heap, t, y.heap, t', s, data);
  }

  lemma {:induction false} DirListed(t: Tree, d: nat, i: nat)
    requires EntryAt(t, d, i)
    ensures d in t.dirs
  {
  }
}
