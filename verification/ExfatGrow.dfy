/** Appending to a directory: the states between the first new entry and the end marker. */
module ExfatGrow {
  import opened Arith
  import opened Bytes
  import opened ExfatNames
  import opened ExfatEntrySet
  import opened ExfatScan
  import opened ExfatSpace
  import opened ExfatHeap
  import opened ExfatTree
  import opened ExfatLayout
  import opened ExfatEdit

  /** The volume invariant, except for what directory d holds. */
  ghost predicate Appending(geo: Geo, x: Disk, t: Tree, lay: Layout, d: nat) {
    && geo.Valid() && SpaceOk(geo, x, t.own, t.at) && RefsOk(geo, t)
    && lay.Keys == t.dirs.Keys && d in t.dirs
    && (forall k <- t.dirs :: k in t.own && k in lay)
    && (forall k <- t.dirs :: k != d ==> DirOk(x.heap, t.own[k].chain, lay[k], t.dirs[k]))
    && Reads(lay[d], t.dirs[d]) && Checked(lay[d])
  }

  /** Directory d holds its items and then m entries of a new set. */
  ghost predicate Filled(heap: Heap, chain: seq<nat>, items: seq<Item>, ents: seq<Slot>, m: nat) {
    && InHeap(heap, chain) && m <= |ents|
    && var cells, n := DirCells(heap, chain), |AllSlots(items)| + m;
       n <= |cells| && SlotsOfCells(cells[..n]) == AllSlots(items) + ents[..m]
  }

  /** Directories of t0 are those of t, up to recorded lengths; only d has grown. */
  ghost predicate Since(t0: Tree, t: Tree, d: nat) {
    && t0.dirs.Keys == t.dirs.Keys
    && (forall k <- t0.dirs :: k in t0.own && k in t.own && SimilarAll(t0.dirs[k], t.dirs[k]))
    && (forall k <- t0.dirs :: k != d ==> t0.own[k].chain == t.own[k].chain)
    && (d in t0.dirs ==> t0.own[d].chain != [] && t0.own[d].chain <= t.own[d].chain)
  }

  /** y differs from x outside the links and clusters of the directories of t0. */
  ghost predicate Untouched(x: Disk, y: Disk, t0: Tree) {
    && |y.fat| == |x.fat| == |y.heap|
    && (forall k, i :: k in t0.dirs && k in t0.own && 0 <= i < |t0.own[k].chain| - 1 && t0.own[k].chain[i] < |x.fat| ==>
          y.fat[t0.own[k].chain[i]] == x.fat[t0.own[k].chain[i]])
    && (forall k, i ::
          && k in t0.dirs && k in t0.own && 0 <= i < |t0.own[k].chain|
          && t0.own[k].chain[i] < |x.heap| && t0.own[k].chain[i] < |y.heap| ==>
          y.heap[t0.own[k].chain[i]] == x.heap[t0.own[k].chain[i]])
  }

  lemma {:induction false} ShowsFrame(x: Disk, y: Disk, t0: Tree)
    requires Shows(x, t0) && Untouched(x, y, t0)
    ensures Shows(y, t0)
  {
    forall k | k in t0.dirs
      ensures ShowsDir(y, t0.own[k].chain, t0.dirs[k])
    {
      assert ShowsDir(x, t0.own[k].chain, t0.dirs[k]);
      ShowsDirFrame(x, y, t0.own[k].chain, t0.dirs[k]);
    }
  }

  lemma {:induction false} SimilarTrans(a: Dir, b: Dir, c: Dir)
    requires SimilarAll(a, b) && SimilarAll(b, c)
    ensures SimilarAll(a, c)
  {
    forall i | 0 <= i < |a|
      ensures Similar(a[i], c[i])
    {
      assert Similar(a[i], b[i]) && Similar(b[i], c[i]);
    }
  }

  /** Entries up to the new set stay visible through the clusters the directory had before. */
  lemma {:induction false} FilledShows(x: Disk, chain0: seq<nat>, chain: seq<nat>, items: seq<Item>, ents: seq<Slot>,
      m: nat, dir0: Dir, dir: Dir)
    requires Filled(x.heap, chain, items, ents, m) && PathOf(x.fat, chain) && |x.heap| == |x.fat|
    requires chain0 != [] && chain0 <= chain && InHeap(x.heap, chain0)
    requires |AllSlots(items)| <= |DirCells(x.heap, chain0)|
    requires Reads(items, dir) && SimilarAll(dir0, dir)
    ensures ShowsDir(x, chain0, dir0)
  {
    hide ClusterCells, ItemOk, Similar, EntryOf;
    var n := |AllSlots(items)|;
    assert chain == chain0 + chain[|chain0|..];
    DirCellsConcat(x.heap, chain0, chain[|chain0|..]);
    var c0, c := DirCells(x.heap, chain0), DirCells(x.heap, chain);
    assert c0[..n] == c[..n];
    assert SlotsOfCells(c[..n]) == SlotsOfCells(c[..n + m])[..n] == AllSlots(items);
    assert ShowsItems(x, chain0, items);
  }

  /** While a set is being appended, every entry of every directory stays visible. */
  lemma {:induction false} AppendingShows(geo: Geo, x: Disk, t: Tree, lay: Layout, d: nat, t0: Tree, ents: seq<Slot>,
      m: nat)
    requires Appending(geo, x, t, lay, d) && Since(t0, t, d)
    requires Filled(x.heap, t.own[d].chain, lay[d], ents, m)
    requires InHeap(x.heap, t0.own[d].chain) && |AllSlots(lay[d])| <= |DirCells(x.heap, t0.own[d].chain)|
    ensures Shows(x, t0)
  {
    forall k | k in t0.dirs
      ensures ShowsDir(x, t0.own[k].chain, t0.dirs[k])
    {
      AppendingChain(geo, x, t, lay, d, k);
      assert SimilarAll(t0.dirs[k], t.dirs[k]);
      if k == d {
        FilledShows(x, t0.own[k].chain, t.own[k].chain, lay[k], ents, m, t0.dirs[k], t.dirs[k]);
      } else {
        assert DirOk(x.heap, t.own[k].chain, lay[k], t.dirs[k]);
        hide Appending, Since, Filled;
        assert ShowsItems(x, t.own[k].chain, lay[k]);
      }
    }
  }

  lemma {:induction false} AppendingChain(geo: Geo, x: Disk, t: Tree, lay: Layout, d: nat, k: nat)
    requires Appending(geo, x, t, lay, d) && k in t.dirs
    ensures k in t.own && k in lay && !t.own[k].contig && |x.fat| == |x.heap| == geo.Total() && DiskOk(geo, x)
    ensures
      var chain := t.own[k].chain;
      && chain != [] && chain[0] == k && |chain| <= geo.Total() < MAX_CLUSTERS && Distinct(chain)
      && InHeap(x.heap, chain) && Covers(x.heap, chain, geo.Slots())
      && PathOf(x.fat, chain) && x.fat[chain[|chain| - 1]] >= EOC
  {
    ChainFacts(geo, x, t.own, t.at, k);
  }

  // ---- One more cluster ------------------------------------------------------------

  function NewSize(geo: Geo, e: Entry): nat { (e.size + geo.ClusBytes()) % TWO32 }

  /** The layout after directory d has grown: its entry set in the parent is rewritten. */
  ghost function GrownLay(geo: Geo, t: Tree, lay: Layout, d: nat): Layout {
    if d in t.refs && EntryAt(t, t.refs[d].0, t.refs[d].1)
       && t.refs[d].0 in lay && t.refs[d].1 < |lay[t.refs[d].0]| && lay[t.refs[d].0][t.refs[d].1].Live?
       && |lay[t.refs[d].0][t.refs[d].1].ents| >= 2
    then
      var (p, i) := t.refs[d];
      lay[p := lay[p][i := Live(WithSize(lay[p][i].ents, NewSize(geo, EntAt(t, p, i))))]]
    else lay
  }

  /** The device once cluster c is linked behind d's chain and zeroed. */
  ghost predicate Zeroed(geo: Geo, x0: Disk, x: Disk, last: nat, c: nat) {
    && last < |x0.fat| && c < |x0.fat| && c < |x0.bits| && c < |x0.heap|
    && x == LinkedIn(x0, last, c).(heap := x0.heap[c := Zeros(geo.ClusBytes())])
  }

  function Zeros(n: nat): (b: seq<Byte>)
    ensures |b| == n
  {
    seq(n, _ => 0)
  }

  lemma {:induction false} SpaceHeap(geo: Geo, x: Disk, y: Disk, own: Owners, at: Places)
    requires SpaceOk(geo, x, own, at) && y.fat == x.fat && y.bits == x.bits && |y.heap| == |x.heap|
    requires forall c :: 0 <= c < |y.heap| ==> |y.heap[c]| == |x.heap[c]|
    ensures SpaceOk(geo, y, own, at)
  {
  }

  /** A parent directory is not the directory itself. */
  lemma {:induction false} ParentDiffers(geo: Geo, t: Tree, d: nat)
    requires RefsOk(geo, t) && d in t.dirs && d in t.refs
    ensures t.refs[d].0 != d && t.refs[d].0 in t.dirs && EntryAt(t, t.refs[d].0, t.refs[d].1)
    ensures EntAt(t, t.refs[d].0, t.refs[d].1).isDir && EntAt(t, t.refs[d].0, t.refs[d].1).first == d
    ensures EntAt(t, t.refs[d].0, t.refs[d].1).size < TWO32
  {
    assert RefOk(geo, t, d);
    assert EntryOk(geo, t, t.refs[d].0, t.refs[d].1);
  }

  lemma {:induction false} DirOkFrame(heap: Heap, heap': Heap, chain: seq<nat>, items: seq<Item>, dir: Dir)
    requires DirOk(heap, chain, items, dir)
    requires |heap'| == |heap| && forall i :: 0 <= i < |chain| ==> heap'[chain[i]] == heap[chain[i]]
    ensures DirOk(heap', chain, items, dir)
  {
    DirCellsFrame(heap, heap', chain);
  }

  /** The parent after the directory's own entry set has been rewritten. */
  lemma {:induction false} MetaHolds(geo: Geo, xz: Disk, x1: Disk, chain: seq<nat>, items: seq<Item>, dir: Dir, i: nat,
      size: nat)
    requires DirOk(xz.heap, chain, items, dir) && i < |items| && dir[i].Some? && size < TWO64
    requires items[i].Live? && |items[i].ents| >= 2
    requires Rewritten(xz, x1, chain, ItemStart(items, i), WithSize(items[i].ents, size))
    ensures
      var it := Live(WithSize(items[i].ents, size));
      DirOk(x1.heap, chain, items[i := it], dir[i := Some(dir[i].value.(size := size))])
  {
    hide SetOk, EntryOf, WithSize, DirHolds, Rewritten, ItemOk, Reads, Checked;
    var it := Live(WithSize(items[i].ents, size));
    ReadsSize(items, dir);
    LiveShape(items, dir, i);
    WithSizeDecodes(items[i].ents, size);
    SetIsItem(it.ents);
    EditHolds(xz, x1, chain, items, i, it.ents, it);
    ReadsUpdated(items, dir, i, it.ents, dir[i].value.(size := size));
  }

  lemma {:induction false} SetIsItem(ents: seq<Slot>)
    requires SetOk(ents)
    ensures ItemOk(Live(ents))
  {
  }

  lemma {:induction false} ReadsUpdated(items: seq<Item>, dir: Dir, i: nat, ents: seq<Slot>, e: Entry)
    requires Reads(items, dir) && Checked(items) && i < |items| && SetOk(ents) && EntryOf(ents) == e
    ensures i < |dir| && Reads(items[i := Live(ents)], dir[i := Some(e)]) && Checked(items[i := Live(ents)])
  {
    hide EntryOf, SetOk, ItemOk;
    SetIsItem(ents);
  }

  /** Item i of directory p, readable on both levels. */
  ghost predicate BothAt(t: Tree, lay: Layout, p: nat, i: nat) {
    && EntryAt(t, p, i) && p in t.own && p in lay && i < |lay[p]| && lay[p][i].Live? && |lay[p][i].ents| >= 2
  }

  lemma {:induction false} GrownChild(geo: Geo, t: Tree, lay: Layout, d: nat, c: nat)
    requires d in t.own && d in t.refs && BothAt(t, lay, t.refs[d].0, t.refs[d].1)
    ensures
      var t', (p, i) := Grown(geo, t, d, c), t.refs[d];
      var e := EntAt(t, p, i);
      && t'.own == t.own[d := t.own[d].(chain := t.own[d].chain + [c])]
      && t'.at == t.at[c := (d, |t.own[d].chain|)]
      && t'.dirs == t.dirs[p := t.dirs[p][i := Some(e.(size := NewSize(geo, e)))]]
      && GrownLay(geo, t, lay, d) == lay[p := lay[p][i := Live(WithSize(lay[p][i].ents, NewSize(geo, e)))]]
  {
    hide WithSize;
  }

  lemma {:induction false} GrownRoot(geo: Geo, t: Tree, lay: Layout, d: nat, c: nat)
    requires d in t.own && d !in t.refs
    ensures
      var t' := Grown(geo, t, d, c);
      && t'.own == t.own[d := t.own[d].(chain := t.own[d].chain + [c])]
      && t'.at == t.at[c := (d, |t.own[d].chain|)]
      && t'.dirs == t.dirs
      && GrownLay(geo, t, lay, d) == lay
  {
    hide WithSize;
  }

  /** The directory's entry set in the parent carries the new length; the root has none. */
  ghost predicate MetaDone(geo: Geo, xz: Disk, x1: Disk, t: Tree, lay: Layout, d: nat) {
    if d in t.refs then
      var (p, i) := t.refs[d];
      && BothAt(t, lay, p, i)
      && Rewritten(xz, x1, t.own[p].chain, ItemStart(lay[p], i),
                   WithSize(lay[p][i].ents, NewSize(geo, EntAt(t, p, i))))
    else x1 == xz
  }

  lemma {:induction false} LiveShape(items: seq<Item>, dir: Dir, i: nat)
    requires Reads(items, dir) && Checked(items) && i < |dir| && dir[i].Some?
    ensures i < |items| && items[i].Live? && SetOk(items[i].ents) && |items[i].ents| >= 2
    ensures EntryOf(items[i].ents) == dir[i].value
  {
  }

  lemma {:induction false} OtherOwners(geo: Geo, x: Disk, own: Owners, at: Places, p: nat, k: nat)
    requires SpaceOk(geo, x, own, at) && p in own && k in own && k != p
    ensures forall i :: 0 <= i < |own[k].chain| ==> own[k].chain[i] !in own[p].chain
  {
    forall i | 0 <= i < |own[k].chain|
      ensures own[k].chain[i] !in own[p].chain
    {
      assert at[own[k].chain[i]] == (k, i);
    }
  }

  lemma {:induction false} FreeNotOwned(geo: Geo, x: Disk, own: Owners, at: Places, k: nat, c: nat)
    requires SpaceOk(geo, x, own, at) && k in own && 2 <= c < geo.Total() && !x.bits[c]
    ensures c !in own[k].chain
  {
  }

  /** After growing, the parent holds the new length. */
  lemma {:induction false} GrownParent(geo: Geo, xz: Disk, x1: Disk, t: Tree, lay: Layout, d: nat, c: nat)
    requires d in t.own && d in t.refs && MetaDone(geo, xz, x1, t, lay, d) && t.refs[d].0 != d
    requires DirOk(xz.heap, t.own[t.refs[d].0].chain, lay[t.refs[d].0], t.dirs[t.refs[d].0])
    ensures
      var p := t.refs[d].0;
      var t', lay' := Grown(geo, t, d, c), GrownLay(geo, t, lay, d);
      p in t'.own && p in t'.dirs && p in lay' && DirOk(x1.heap, t'.own[p].chain, lay'[p], t'.dirs[p])
  {
    var (p, i) := t.refs[d];
    GrownChild(geo, t, lay, d, c);
    hide Grown, GrownLay, DirOk, WithSize, Rewritten;
    MetaHolds(geo, xz, x1, t.own[p].chain, lay[p], t.dirs[p], i, NewSize(geo, EntAt(t, p, i)));
  }

  /** After growing, a directory that is neither the grown one nor its parent is as before. */
  lemma {:induction false} GrownOther(geo: Geo, xz: Disk, x1: Disk, t: Tree, lay: Layout, d: nat, c: nat, k: nat)
    requires d in t.own && MetaDone(geo, xz, x1, t, lay, d)
    requires k != d && (d in t.refs ==> k != t.refs[d].0) && k in t.own && k in t.dirs && k in lay
    requires DirOk(xz.heap, t.own[k].chain, lay[k], t.dirs[k])
    requires d in t.refs ==>
      forall i :: 0 <= i < |t.own[k].chain| ==> t.own[k].chain[i] !in t.own[t.refs[d].0].chain
    ensures
      var t', lay' := Grown(geo, t, d, c), GrownLay(geo, t, lay, d);
      k in t'.own && k in t'.dirs && k in lay' && DirOk(x1.heap, t'.own[k].chain, lay'[k], t'.dirs[k])
  {
    if d in t.refs {
      GrownChild(geo, t, lay, d, c);
      hide Grown, GrownLay, WithSize, DirHolds, Reads, Checked;
      DirOkFrame(xz.heap, x1.heap, t.own[k].chain, lay[k], t.dirs[k]);
    } else {
      GrownRoot(geo, t, lay, d, c);
    }
  }

  lemma {:induction false} AppendingDir(geo: Geo, x: Disk, t: Tree, lay: Layout, d: nat, k: nat)
    requires Appending(geo, x, t, lay, d) && k in t.dirs
    ensures k in t.own && k in lay && Reads(lay[k], t.dirs[k]) && Checked(lay[k])
    ensures k != d ==> DirOk(x.heap, t.own[k].chain, lay[k], t.dirs[k])
  {
    if k != d {
      assert DirOk(x.heap, t.own[k].chain, lay[k], t.dirs[k]);
    }
  }

  /** The new cluster and the parent's clusters lie apart from other directories. */
  lemma {:induction false} AppendingApart(geo: Geo, x: Disk, t: Tree, lay: Layout, d: nat, k: nat, c: nat)
    requires Appending(geo, x, t, lay, d) && 2 <= c < geo.Total() && !x.bits[c]
    requires k in t.dirs
    ensures k in t.own && c !in t.own[k].chain
    ensures d in t.refs ==> t.refs[d].0 in t.own
    ensures d in t.refs && k != t.refs[d].0 ==>
      forall i :: 0 <= i < |t.own[k].chain| ==> t.own[k].chain[i] !in t.own[t.refs[d].0].chain
  {
    FreeNotOwned(geo, x, t.own, t.at, k, c);
    if d in t.refs {
      ParentDiffers(geo, t, d);
      if k != t.refs[d].0 {
        OtherOwners(geo, x, t.own, t.at, t.refs[d].0, k);
      }
    }
  }

  /** Growing is complete: every other directory still holds its entries, the parent with the new
      length. */
  lemma {:induction false} GrownDirs(geo: Geo, x0: Disk, xz: Disk, x1: Disk, t: Tree, lay: Layout, d: nat, c: nat,
      k: nat)
    requires Appending(geo, x0, t, lay, d) && 2 <= c < geo.Total() && !x0.bits[c] && d in t.own
    requires t.own[d].chain != [] && Zeroed(geo, x0, xz, t.own[d].chain[|t.own[d].chain| - 1], c)
    requires MetaDone(geo, xz, x1, t, lay, d)
    requires k in t.dirs && k != d
    ensures
      var t', lay' := Grown(geo, t, d, c), GrownLay(geo, t, lay, d);
      k in t'.own && k in t'.dirs && k in lay' && DirOk(x1.heap, t'.own[k].chain, lay'[k], t'.dirs[k])
  {
    AppendingDir(geo, x0, t, lay, d, k);
    AppendingApart(geo, x0, t, lay, d, k, c);
    if d in t.refs {
      AppendingParent(geo, x0, t, lay, d);
    }
    ZeroedOther(geo, x0, xz, t.own[d].chain[|t.own[d].chain| - 1], c, t.own[k].chain, lay[k], t.dirs[k]);
    hide Appending, DirOk, Reads, Checked, MetaDone, Zeroed, Grown, GrownLay;
    if d in t.refs && k == t.refs[d].0 {
      GrownParent(geo, xz, x1, t, lay, d, c);
    } else {
      GrownOther(geo, xz, x1, t, lay, d, c, k);
    }
  }

  lemma {:induction false} ZeroedOther(geo: Geo, x0: Disk, xz: Disk, last: nat, c: nat, chain: seq<nat>,
      items: seq<Item>, dir: Dir)
    requires Zeroed(geo, x0, xz, last, c) && c !in chain && DirOk(x0.heap, chain, items, dir)
    ensures DirOk(xz.heap, chain, items, dir)
  {
    hide DirHolds, Reads, Checked;
    DirOkFrame(x0.heap, xz.heap, chain, items, dir);
  }

  lemma {:induction false} MetaDoneDisk(geo: Geo, xz: Disk, x1: Disk, t: Tree, lay: Layout, d: nat)
    requires MetaDone(geo, xz, x1, t, lay, d)
    ensures x1.fat == xz.fat && x1.bits == xz.bits && |x1.heap| == |xz.heap|
    ensures forall c :: 0 <= c < |x1.heap| ==> |x1.heap[c]| == |xz.heap[c]|
  {
  }

  lemma {:induction false} GrownOwn(geo: Geo, t: Tree, d: nat, c: nat)
    requires d in t.own
    ensures
      var t' := Grown(geo, t, d, c);
      && t'.own == t.own[d := t.own[d].(chain := t.own[d].chain + [c])]
      && t'.at == t.at[c := (d, |t.own[d].chain|)]
      && t'.refs == t.refs && t'.loose == t.loose && t'.depth == t.depth && t'.orphans == t.orphans
  {
  }

  lemma {:induction false} SpaceDisk(geo: Geo, x: Disk, own: Owners, at: Places)
    requires SpaceOk(geo, x, own, at)
    ensures DiskOk(geo, x)
  {
  }

  lemma {:induction false} ZeroedSpace(geo: Geo, x0: Disk, xz: Disk, own: Owners, at: Places, d: nat, c: nat)
    requires geo.Valid() && SpaceOk(geo, x0, own, at) && d in own && !own[d].contig
    requires 2 <= c < geo.Total() && !x0.bits[c] && own[d].chain != []
    requires Zeroed(geo, x0, xz, own[d].chain[|own[d].chain| - 1], c)
    ensures SpaceOk(geo, xz, own[d := own[d].(chain := own[d].chain + [c])], at[c := (d, |own[d].chain|)])
    ensures c !in own && c !in at
  {
    hide SpaceOk;
    SpaceDisk(geo, x0, own, at);
    SpaceExtend(geo, x0, own, at, d, c);
    var own', at' := own[d := own[d].(chain := own[d].chain + [c])], at[c := (d, |own[d].chain|)];
    var linked := LinkedIn(x0, own[d].chain[|own[d].chain| - 1], c);
    SpaceHeap(geo, linked, xz, own', at');
  }

  lemma {:induction false} MetaDoneSpace(geo: Geo, xz: Disk, x1: Disk, t: Tree, lay: Layout, d: nat, c: nat)
    requires d in t.own && MetaDone(geo, xz, x1, t, lay, d)
    requires SpaceOk(geo, xz, t.own[d := t.own[d].(chain := t.own[d].chain + [c])], t.at[c := (d, |t.own[d].chain|)])
    ensures SpaceOk(geo, x1, Grown(geo, t, d, c).own, Grown(geo, t, d, c).at)
  {
    MetaDoneDisk(geo, xz, x1, t, lay, d);
    GrownOwn(geo, t, d, c);
    hide SpaceOk, MetaDone, Grown;
    SpaceHeap(geo, xz, x1, t.own[d := t.own[d].(chain := t.own[d].chain + [c])], t.at[c := (d, |t.own[d].chain|)]);
  }

  lemma {:induction false} GrownParts(geo: Geo, t: Tree, lay: Layout, d: nat, c: nat)
    requires d in t.dirs && lay.Keys == t.dirs.Keys && d in t.own
    requires d in t.refs ==> t.refs[d].0 != d && BothAt(t, lay, t.refs[d].0, t.refs[d].1)
    ensures
      var t', lay' := Grown(geo, t, d, c), GrownLay(geo, t, lay, d);
      && lay'.Keys == t'.dirs.Keys && t'.dirs.Keys == t.dirs.Keys && t'.own.Keys == t.own.Keys
      && lay'[d] == lay[d] && t'.dirs[d] == t.dirs[d]
      && t'.own[d].chain == t.own[d].chain + [c]
  {
    if d in t.refs {
      GrownChild(geo, t, lay, d, c);
    } else {
      GrownRoot(geo, t, lay, d, c);
    }
    hide Grown, GrownLay, WithSize;
  }

  lemma {:induction false} GrownSince(geo: Geo, t: Tree, lay: Layout, d: nat, c: nat)
    requires d in t.dirs && d in t.own && t.own[d].chain != [] && forall k <- t.dirs :: k in t.own
    requires d in t.refs ==> BothAt(t, lay, t.refs[d].0, t.refs[d].1) && EntAt(t, t.refs[d].0, t.refs[d].1).isDir
    ensures Since(t, Grown(geo, t, d, c), d)
  {
    if d in t.refs {
      GrownChild(geo, t, lay, d, c);
    } else {
      GrownRoot(geo, t, lay, d, c);
    }
    hide Grown, GrownLay, WithSize;
  }

  lemma {:induction false} AppendingParent(geo: Geo, x: Disk, t: Tree, lay: Layout, d: nat)
    requires Appending(geo, x, t, lay, d) && d in t.refs
    ensures
      var (p, i) := t.refs[d];
      && p != d && p in t.dirs && BothAt(t, lay, p, i) && EntAt(t, p, i).isDir && EntAt(t, p, i).first == d
      && EntAt(t, p, i).size < TWO32 && SetOk(lay[p][i].ents)
      && EntryOf(lay[p][i].ents) == EntAt(t, p, i)
  {
    ParentDiffers(geo, t, d);
    AppendingDir(geo, x, t, lay, d, t.refs[d].0);
    hide Appending;
    LiveShape(lay[t.refs[d].0], t.dirs[t.refs[d].0], t.refs[d].1);
  }

  lemma {:induction false} AppendingBasics(geo: Geo, x: Disk, t: Tree, lay: Layout, d: nat)
    requires Appending(geo, x, t, lay, d)
    ensures geo.Valid() && SpaceOk(geo, x, t.own, t.at) && RefsOk(geo, t) && lay.Keys == t.dirs.Keys && d in t.dirs
    ensures forall k <- t.dirs :: k in t.own && k in lay
    ensures Reads(lay[d], t.dirs[d]) && Checked(lay[d])
    ensures d in t.own && t.own[d].chain != [] && !t.own[d].contig
  {
    AppendingChain(geo, x, t, lay, d, d);
  }

  lemma {:induction false} GrownAppending(geo: Geo, x0: Disk, xz: Disk, x1: Disk, t: Tree, lay: Layout, d: nat, c: nat)
    requires Appending(geo, x0, t, lay, d) && 2 <= c < geo.Total() && !x0.bits[c]
    requires d in t.own && t.own[d].chain != []
    requires Zeroed(geo, x0, xz, t.own[d].chain[|t.own[d].chain| - 1], c)
    requires MetaDone(geo, xz, x1, t, lay, d)
    ensures Appending(geo, x1, Grown(geo, t, d, c), GrownLay(geo, t, lay, d), d)
    ensures Since(t, Grown(geo, t, d, c), d)
  {
    hide Appending, SpaceOk, RefsOk, DirOk, Reads, Checked, Grown, GrownLay, MetaDone, Zeroed, Since;
    AppendingBasics(geo, x0, t, lay, d);
    if d in t.refs {
      AppendingParent(geo, x0, t, lay, d);
    }
    var t', lay' := Grown(geo, t, d, c), GrownLay(geo, t, lay, d);
    GrownParts(geo, t, lay, d, c);
    GrownSince(geo, t, lay, d, c);
    GrowKeepsRefs(geo, t, d, c);
    ZeroedSpace(geo, x0, xz, t.own, t.at, d, c);
    MetaDoneSpace(geo, xz, x1, t, lay, d, c);
    forall k | k in t'.dirs && k != d
      ensures k in t'.own && k in lay' && DirOk(x1.heap, t'.own[k].chain, lay'[k], t'.dirs[k])
    {
      GrownDirs(geo, x0, xz, x1, t, lay, d, c, k);
    }
    AppendingIntro(geo, x1, t', lay', d);
  }

  lemma {:induction false} AppendingIntro(geo: Geo, x: Disk, t: Tree, lay: Layout, d: nat)
    requires geo.Valid() && SpaceOk(geo, x, t.own, t.at) && RefsOk(geo, t)
    requires lay.Keys == t.dirs.Keys && d in t.dirs && Reads(lay[d], t.dirs[d]) && Checked(lay[d])
    requires forall k <- t.dirs :: k != d ==> k in t.own && k in lay && DirOk(x.heap, t.own[k].chain, lay[k], t.dirs[k])
    ensures Appending(geo, x, t, lay, d)
  {
    hide SpaceOk, EntriesOk, Reads, Checked, DirOk;
  }

  // ---- Every state on the way shows the tree -----------------------------------------

  /** y is x with other values at the links of clusters c and last and in the bytes of c. */
  ghost predicate NearGrow(x: Disk, y: Disk, last: nat, c: nat) {
    && |y.fat| == |x.fat| == |y.heap| == |x.heap|
    && (forall i :: 0 <= i < |x.fat| && i != c && i != last ==> y.fat[i] == x.fat[i])
    && (forall i :: 0 <= i < |x.heap| && i != c ==> y.heap[i] == x.heap[i])
  }

  lemma {:induction false} GrowPlaces(own: Owners, at: Places, d: nat, k: nat, i: nat, c: nat)
    requires Placed(own, at) && d in own && own[d].chain != [] && k in own && i < |own[k].chain| && c !in at
    ensures own[k].chain[i] != c
    ensures k != d || i < |own[d].chain| - 1 ==> own[k].chain[i] != own[d].chain[|own[d].chain| - 1]
  {
    assert at[own[k].chain[i]] == (k, i);
    assert at[own[d].chain[|own[d].chain| - 1]] == (d, |own[d].chain| - 1);
  }

  lemma {:induction false} GrowShows(geo: Geo, x: Disk, y: Disk, t: Tree, lay: Layout, d: nat, t0: Tree, c: nat)
    requires Appending(geo, x, t, lay, d) && Since(t0, t, d) && Shows(x, t0)
    requires 2 <= c < geo.Total() && !x.bits[c] && d in t.own && t.own[d].chain != []
    requires NearGrow(x, y, t.own[d].chain[|t.own[d].chain| - 1], c)
    ensures Shows(y, t0)
  {
    hide Appending, SpaceOk, RefsOk, Reads, Checked, Shows, Since;
    AppendingBasics(geo, x, t, lay, d);
    FreeIsUnowned(geo, x, t.own, t.at, c);
    SpacePlaced(geo, x, t.own, t.at);
    GrowUntouched(x, y, t, d, t0, c);
    ShowsFrame(x, y, t0);
  }

  lemma {:induction false} SpacePlaced(geo: Geo, x: Disk, own: Owners, at: Places)
    requires SpaceOk(geo, x, own, at)
    ensures Placed(own, at)
  {
  }

  lemma {:induction false} GrowUntouched(x: Disk, y: Disk, t: Tree, d: nat, t0: Tree, c: nat)
    requires Placed(t.own, t.at) && Since(t0, t, d) && c !in t.at && d in t.own && t.own[d].chain != []
    requires NearGrow(x, y, t.own[d].chain[|t.own[d].chain| - 1], c)
    ensures Untouched(x, y, t0)
  {
    forall k, i | k in t0.dirs && k in t0.own && 0 <= i < |t0.own[k].chain|
      ensures t0.own[k].chain[i] != c
      ensures i < |t0.own[k].chain| - 1 ==> t0.own[k].chain[i] != t.own[d].chain[|t.own[d].chain| - 1]
    {
      assert t.own[k].chain[i] == t0.own[k].chain[i];
      GrowPlaces(t.own, t.at, d, k, i, c);
    }
    hide Placed, Since;
  }

  lemma {:induction false} SimilarUpdate(dir0: Dir, dir: Dir, i: nat, e: Option<Entry>)
    requires SimilarAll(dir0, dir) && i < |dir| && Similar(dir[i], e)
    ensures SimilarAll(dir0, dir[i := e])
  {
    forall j | 0 <= j < |dir|
      ensures Similar(dir0[j], dir[i := e][j])
    {
      assert Similar(dir0[j], dir[j]);
    }
  }

  /** While the parent's record is being rewritten, the parent still shows all its entries. */
  lemma {:induction false} MetaShowsParent(geo: Geo, xz: Disk, y: Disk, chain: seq<nat>, items: seq<Item>, dir: Dir,
      i: nat, size: nat, m: nat, dir0: Dir)
    requires DirOk(xz.heap, chain, items, dir) && i < |items| && dir[i].Some? && dir[i].value.isDir && size < TWO64
    requires items[i].Live? && 0 < m <= |items[i].ents|
    requires SetOk(items[i].ents) && EntryOf(items[i].ents) == dir[i].value
    requires PathOf(y.fat, chain) && |y.heap| == |y.fat|
    requires Rewritten(xz, y, chain, ItemStart(items, i), WithSize(items[i].ents, size)[..m])
    requires SimilarAll(dir0, dir)
    ensures ShowsDir(y, chain, dir0)
  {
    var ents := items[i].ents;
    var it := Live(Mixed(WithSize(ents, size), ents, m));
    MixedSize(ents, size, m);
    var e := Some(EntryOf(it.ents));
    hide SetOk, EntryOf, WithSize, DirHolds, Rewritten;
    EditShows(xz, y, chain, items, dir, i, WithSize(ents, size)[..m], it, e);
    SimilarUpdate(dir0, dir, i, e);
  }

  lemma {:induction false} MetaShows(geo: Geo, xz: Disk, y: Disk, t: Tree, lay: Layout, d: nat, t0: Tree, m: nat)
    requires Shows(xz, t0) && Since(t0, t, d) && d in t.refs && t.refs[d].0 in t.dirs && t.refs[d].0 != d
    requires BothAt(t, lay, t.refs[d].0, t.refs[d].1)
    requires EntAt(t, t.refs[d].0, t.refs[d].1).isDir
    requires SetOk(lay[t.refs[d].0][t.refs[d].1].ents)
    requires EntryOf(lay[t.refs[d].0][t.refs[d].1].ents) == EntAt(t, t.refs[d].0, t.refs[d].1)
    requires DirOk(xz.heap, t.own[t.refs[d].0].chain, lay[t.refs[d].0], t.dirs[t.refs[d].0])
    requires PathOf(xz.fat, t.own[t.refs[d].0].chain)
    requires forall k, i :: k in t.own && k != t.refs[d].0 && 0 <= i < |t.own[k].chain| ==>
      t.own[k].chain[i] !in t.own[t.refs[d].0].chain
    requires 0 < m <= |lay[t.refs[d].0][t.refs[d].1].ents|
    requires
      var (p, i) := t.refs[d];
      Rewritten(xz, y, t.own[p].chain, ItemStart(lay[p], i),
        WithSize(lay[p][i].ents, NewSize(geo, EntAt(t, p, i)))[..m])
    ensures Shows(y, t0)
  {
    hide Shows, ShowsDir, DirOk, SetOk, EntryOf, Rewritten, WithSize, Since, PathOf, SimilarAll;
    var (p, i) := t.refs[d];
    RewrittenFrame(xz, y, t.own[p].chain, ItemStart(lay[p], i),
      WithSize(lay[p][i].ents, NewSize(geo, EntAt(t, p, i)))[..m]);
    ShowsDirs(xz, t0);
    forall k | k in t0.dirs
      ensures k in t0.own && ShowsDir(y, t0.own[k].chain, t0.dirs[k])
    {
      SinceDir(t0, t, d, k);
      if k == p {
        MetaShowsParent(geo, xz, y, t.own[p].chain, lay[p], t.dirs[p], i, NewSize(geo, EntAt(t, p, i)), m, t0.dirs[p]);
      } else {
        assert forall j :: 0 <= j < |t0.own[k].chain| ==> t0.own[k].chain[j] == t.own[k].chain[j];
        ShowsDirFrame(xz, y, t0.own[k].chain, t0.dirs[k]);
      }
    }
    ShowsIntro(y, t0);
  }

  lemma {:induction false} ShowsDirs(x: Disk, t0: Tree)
    requires Shows(x, t0)
    ensures |x.heap| == |x.fat| && forall k <- t0.dirs :: k in t0.own && ShowsDir(x, t0.own[k].chain, t0.dirs[k])
  {
    hide ShowsDir;
  }

  lemma {:induction false} ShowsIntro(x: Disk, t0: Tree)
    requires |x.heap| == |x.fat| && forall k <- t0.dirs :: k in t0.own && ShowsDir(x, t0.own[k].chain, t0.dirs[k])
    ensures Shows(x, t0)
  {
    hide ShowsDir;
  }

  lemma {:induction false} SinceDir(t0: Tree, t: Tree, d: nat, k: nat)
    requires Since(t0, t, d) && k in t0.dirs
    ensures k in t0.own && k in t.own && k in t.dirs && SimilarAll(t0.dirs[k], t.dirs[k])
    ensures t0.own[k].chain <= t.own[k].chain && (k != d ==> t0.own[k].chain == t.own[k].chain)
  {
    hide SimilarAll;
  }

  lemma {:induction false} RewrittenFrame(d: Disk, x: Disk, chain: seq<nat>, start: nat, slots: seq<Slot>)
    requires Rewritten(d, x, chain, start, slots)
    ensures x.fat == d.fat && x.bits == d.bits && |x.heap| == |d.heap|
    ensures forall c :: 0 <= c < |d.heap| && c !in chain ==> x.heap[c] == d.heap[c]
  {
  }

  /** The trace only grows. */
  ghost predicate Extends(a: seq<Disk>, b: seq<Disk>) { |a| <= |b| && b[..|a|] == a }

  /** Every device state since `before` shows the tree. */
  ghost predicate ShownThrough(before: seq<Disk>, tr: seq<Disk>, t0: Tree) {
    Extends(before, tr) && forall j :: |before| <= j < |tr| ==> Shows(tr[j], t0)
  }

  lemma {:induction false} ShownNothing(tr: seq<Disk>, t0: Tree)
    ensures ShownThrough(tr, tr, t0)
  {
  }

  lemma {:induction false} ShownOne(before: seq<Disk>, tr: seq<Disk>, x: Disk, t0: Tree)
    requires ShownThrough(before, tr, t0) && Shows(x, t0)
    ensures ShownThrough(before, tr + [x], t0)
  {
    hide Shows;
  }

  lemma {:induction false} ShownTrans(a: seq<Disk>, b: seq<Disk>, c: seq<Disk>, t0: Tree)
    requires ShownThrough(a, b, t0) && ShownThrough(b, c, t0)
    ensures ShownThrough(a, c, t0)
  {
    hide Shows;
    forall j | |a| <= j < |c|
      ensures Shows(c[j], t0)
    {
      if j < |b| {
        assert c[j] == b[j];
      }
    }
  }

  /** y is x with other bytes in cluster c. */
  ghost predicate OnlyCluster(x: Disk, y: Disk, c: nat) {
    && y.fat == x.fat && y.bits == x.bits && |y.heap| == |x.heap| && c < |x.heap| && |y.heap[c]| == |x.heap[c]|
    && forall i :: 0 <= i < |x.heap| && i != c ==> y.heap[i] == x.heap[i]
  }

  /** After growing, the reference to the directory is current again. */
  lemma {:induction false} RefToGrown(geo: Geo, x0: Disk, xz: Disk, x1: Disk, t: Tree, lay: Layout, c: nat, dr: DirRef)
    requires Appending(geo, x0, t, lay, dr.first) && RefTo(geo, x0.heap, t, lay, dr)
    requires 2 <= c < geo.Total() && !x0.bits[c] && dr.first in t.own && t.own[dr.first].chain != []
    requires Zeroed(geo, x0, xz, t.own[dr.first].chain[|t.own[dr.first].chain| - 1], c)
    requires MetaDone(geo, xz, x1, t, lay, dr.first)
    ensures
      var dr' := if dr.isRoot then dr else dr.(allocBytes := (dr.allocBytes + geo.ClusBytes()) % TWO32);
      RefTo(geo, x1.heap, Grown(geo, t, dr.first, c), GrownLay(geo, t, lay, dr.first), dr')
  {
    hide Appending, RefsOk, Grown, GrownLay, SetOk, WithSize, Reads, Checked, Zeroed, MetaDone, RefTo, SpaceOk;
    var d := dr.first;
    AppendingBasics(geo, x0, t, lay, d);
    RootRef(geo, t, d);
    RefToRoot(geo, x0.heap, t, lay, dr);
    if d in t.refs {
      AppendingParent(geo, x0, t, lay, d);
      AppendingApart(geo, x0, t, lay, d, t.refs[d].0, c);
      RefToChild(geo, x0, xz, x1, t, lay, c, dr);
    } else {
      GrownRoot(geo, t, lay, d, c);
      RefToRootIntro(geo, x1.heap, Grown(geo, t, d, c), lay, dr);
    }
  }

  lemma {:induction false} RefToRoot(geo: Geo, heap: Heap, t: Tree, lay: Layout, dr: DirRef)
    requires RefTo(geo, heap, t, lay, dr)
    ensures dr.isRoot <==> dr.first == geo.root
    ensures !dr.isRoot ==> dr.first in t.refs
  {
    hide PlacedAt;
  }

  lemma {:induction false} RefToRootIntro(geo: Geo, heap: Heap, t: Tree, lay: Layout, dr: DirRef)
    requires dr.isRoot && dr.first == geo.root && geo.root in t.dirs
    ensures RefTo(geo, heap, t, lay, dr)
  {
    hide PlacedAt;
  }

  lemma {:induction false} RefToChild(geo: Geo, x0: Disk, xz: Disk, x1: Disk, t: Tree, lay: Layout, c: nat, dr: DirRef)
    requires RefTo(geo, x0.heap, t, lay, dr) && dr.first in t.refs && dr.first in t.own && geo.root !in t.refs
    requires BothAt(t, lay, t.refs[dr.first].0, t.refs[dr.first].1) && t.refs[dr.first].0 != dr.first
    requires c !in t.own[t.refs[dr.first].0].chain && t.own[dr.first].chain != []
    requires Zeroed(geo, x0, xz, t.own[dr.first].chain[|t.own[dr.first].chain| - 1], c)
    requires MetaDone(geo, xz, x1, t, lay, dr.first)
    ensures RefTo(geo, x1.heap, Grown(geo, t, dr.first, c), GrownLay(geo, t, lay, dr.first),
                  dr.(allocBytes := (dr.allocBytes + geo.ClusBytes()) % TWO32))
  {
    hide Grown, GrownLay, SetOk, WithSize, Zeroed, PlacedAt;
    var d := dr.first;
    var (p, i) := t.refs[d];
    GrownOwn(geo, t, d, c);
    GrownChild(geo, t, lay, d, c);
    RefToParent(geo, x0, xz, x1, t.own[p].chain, lay[p], i, dr.n, dr.locs, NewSize(geo, EntAt(t, p, i)),
      t.own[d].chain[|t.own[d].chain| - 1], c);
    hide Rewritten;
  }

  lemma {:induction false} RootRef(geo: Geo, t: Tree, d: nat)
    requires RefsOk(geo, t)
    ensures geo.root !in t.refs
  {
  }

  lemma {:induction false} RefToParent(geo: Geo, x0: Disk, xz: Disk, x1: Disk, chain: seq<nat>, items: seq<Item>,
      i: nat, n: nat, locs: seq<Loc>, size: nat, last: nat, c: nat)
    requires InHeap(x0.heap, chain) && PlacedAt(DirCells(x0.heap, chain), items, i, n, locs) && c !in chain
    requires Zeroed(geo, x0, xz, last, c) && size < TWO64
    requires Rewritten(xz, x1, chain, ItemStart(items, i), WithSize(items[i].ents, size))
    ensures InHeap(x1.heap, chain)
    ensures PlacedAt(DirCells(x1.heap, chain), items[i := Live(WithSize(items[i].ents, size))], i, n, locs)
  {
    DirCellsFrame(x0.heap, xz.heap, chain);
    WithSizeDecodes(items[i].ents, size);
    hide SetOk, WithSize, DirCells;
    var after := items[i := Live(WithSize(items[i].ents, size))];
    assert after[..i] == items[..i];
  }

  /** The new entries written so far stay in place when the directory grows. */
  lemma {:induction false} FilledGrown(geo: Geo, x0: Disk, xz: Disk, x1: Disk, t: Tree, lay: Layout, d: nat, c: nat,
      ents: seq<Slot>, m: nat)
    requires Appending(geo, x0, t, lay, d) && 2 <= c < geo.Total() && !x0.bits[c]
    requires d in t.own && t.own[d].chain != []
    requires Zeroed(geo, x0, xz, t.own[d].chain[|t.own[d].chain| - 1], c) && MetaDone(geo, xz, x1, t, lay, d)
    requires Filled(x0.heap, t.own[d].chain, lay[d], ents, m)
    ensures Filled(x1.heap, t.own[d].chain + [c], lay[d], ents, m)
    ensures |DirCells(x1.heap, t.own[d].chain)| == |DirCells(x0.heap, t.own[d].chain)|
  {
    hide Appending, Reads, Checked, SetOk, WithSize, RefsOk, SpaceOk;
    AppendingBasics(geo, x0, t, lay, d);
    AppendingChain(geo, x0, t, lay, d, d);
    AppendingApart(geo, x0, t, lay, d, d, c);
    if d in t.refs {
      AppendingParent(geo, x0, t, lay, d);
      MetaDoneDisk(geo, xz, x1, t, lay, d);
      RewrittenFrame(xz, x1, t.own[t.refs[d].0].chain, ItemStart(lay[t.refs[d].0], t.refs[d].1),
                     WithSize(lay[t.refs[d].0][t.refs[d].1].ents, NewSize(geo, EntAt(t, t.refs[d].0, t.refs[d].1))));
    }
    hide MetaDone;
    var chain := t.own[d].chain;
    assert forall i :: 0 <= i < |chain| ==> x1.heap[chain[i]] == x0.heap[chain[i]];
    FilledMore(x0.heap, x1.heap, chain, c, lay[d], ents, m);
  }

  lemma {:induction false} FilledMore(heap: Heap, heap': Heap, chain: seq<nat>, c: nat, items: seq<Item>,
      ents: seq<Slot>, m: nat)
    requires Filled(heap, chain, items, ents, m) && c < |heap'|
    requires forall i :: 0 <= i < |chain| ==> chain[i] < |heap'| && heap'[chain[i]] == heap[chain[i]]
    ensures Filled(heap', chain + [c], items, ents, m)
    ensures |DirCells(heap', chain)| == |DirCells(heap, chain)|
  {
    hide ClusterCells;
    DirCellsFrame(heap, heap', chain);
    DirCellsConcat(heap', chain, [c]);
    var n := |AllSlots(items)| + m;
    assert DirCells(heap', chain + [c])[..n] == DirCells(heap, chain)[..n];
  }

  lemma {:induction false} AppendingDisk(geo: Geo, x: Disk, t: Tree, lay: Layout, d: nat)
    requires Appending(geo, x, t, lay, d)
    ensures geo.Valid() && DiskOk(geo, x)
  {
  }

  lemma {:induction false} AppendingLast(geo: Geo, x: Disk, t: Tree, lay: Layout, d: nat)
    requires Appending(geo, x, t, lay, d) && d in t.own && t.own[d].chain != []
    ensures t.own[d].chain[|t.own[d].chain| - 1] < |x.fat|
  {
    AppendingChain(geo, x, t, lay, d, d);
  }

  lemma {:induction false} ZeroedIntro(geo: Geo, x0: Disk, x3: Disk, xz: Disk, cur: nat, c: nat)
    requires cur < |x0.fat| && c < |x0.fat| && c < |x0.bits| && c < |x0.heap|
    requires x3 == LinkedIn(x0, cur, c) && xz == x3.(heap := x3.heap[c := Zeros(geo.ClusBytes())])
    ensures Zeroed(geo, x0, xz, cur, c)
  {
  }

  /** Allocating, linking and zeroing the new cluster keeps every entry visible. */
  lemma {:induction false} GrowTrace(geo: Geo, x0: Disk, x2: Disk, x3: Disk, xz: Disk, t: Tree, lay: Layout, d: nat,
      t0: Tree, c: nat, tr0: seq<Disk>, tr2: seq<Disk>, tr3: seq<Disk>, trz: seq<Disk>)
    requires Appending(geo, x0, t, lay, d) && Since(t0, t, d) && Shows(x0, t0)
    requires d in t.own && t.own[d].chain != [] && 2 <= c < geo.Total()
    requires |x0.fat| == |x0.bits| == |x0.heap| == geo.Total() && !x0.bits[c]
    requires t.own[d].chain[|t.own[d].chain| - 1] < |x0.fat|
    requires x2 == x0.(fat := x0.fat[c := EOC_WRITE], bits := x0.bits[c := true])
    requires x3 == LinkedIn(x0, t.own[d].chain[|t.own[d].chain| - 1], c)
    requires tr2 == tr0 + [x0.(bits := x0.bits[c := true]), x2] && tr3 == tr2 + [x3]
    requires Extends(tr3, trz) && forall j :: |tr3| <= j < |trz| ==> OnlyCluster(x3, trz[j], c)
    requires OnlyCluster(x3, xz, c)
    ensures ShownThrough(tr0, trz, t0) && Shows(xz, t0)
  {
    hide Appending, Since, Shows;
    var last := t.own[d].chain[|t.own[d].chain| - 1];
    assert NearGrow(x0, xz, last, c);
    GrowShows(geo, x0, xz, t, lay, d, t0, c);
    forall j | |tr0| <= j < |trz|
      ensures Shows(trz[j], t0)
    {
      if j < |tr3| {
        assert trz[j] == tr3[j];
      }
      assert NearGrow(x0, trz[j], last, c);
      GrowShows(geo, x0, trz[j], t, lay, d, t0, c);
    }
    assert trz[..|tr0|] == trz[..|tr3|][..|tr0|];
  }

  /** The parent's record can be edited in place. */
  lemma {:induction false} MetaReady(geo: Geo, x0: Disk, xz: Disk, t: Tree, lay: Layout, dr: DirRef, c: nat)
    requires Appending(geo, x0, t, lay, dr.first) && RefTo(geo, x0.heap, t, lay, dr) && !dr.isRoot
    requires 2 <= c < geo.Total() && c < |x0.bits| && !x0.bits[c] && dr.first in t.own && t.own[dr.first].chain != []
    requires Zeroed(geo, x0, xz, t.own[dr.first].chain[|t.own[dr.first].chain| - 1], c)
    ensures dr.first in t.refs && BothAt(t, lay, t.refs[dr.first].0, t.refs[dr.first].1)
    ensures
      var (p, i) := t.refs[dr.first];
      && Editable(geo, xz.heap, t.own[p].chain, lay[p], i, dr.n, dr.locs)
      && DirOk(xz.heap, t.own[p].chain, lay[p], t.dirs[p])
      && dr.allocBytes == EntAt(t, p, i).size
  {
    hide Appending, SetOk, Zeroed, DirOk, RefsOk, SpaceOk, Reads, Checked;
    RefToRoot(geo, x0.heap, t, lay, dr);
    var d := dr.first;
    var (p, i) := t.refs[d];
    AppendingBasics(geo, x0, t, lay, d);
    AppendingParent(geo, x0, t, lay, d);
    AppendingDir(geo, x0, t, lay, d, p);
    AppendingChain(geo, x0, t, lay, d, p);
    AppendingApart(geo, x0, t, lay, d, p, c);
    ZeroedOther(geo, x0, xz, t.own[d].chain[|t.own[d].chain| - 1], c, t.own[p].chain, lay[p], t.dirs[p]);
    hide PlacedAt;
    EditableZeroed(geo, x0, xz, t.own[d].chain[|t.own[d].chain| - 1], c, t.own[p].chain, lay[p], t.dirs[p], i, dr.n,
      dr.locs);
  }

  lemma {:induction false} EditableZeroed(geo: Geo, x0: Disk, xz: Disk, last: nat, c: nat, chain: seq<nat>,
      items: seq<Item>, dir: Dir, i: nat, n: nat, locs: seq<Loc>)
    requires geo.spc > 0 && Distinct(chain) && InHeap(x0.heap, chain) && Covers(x0.heap, chain, geo.Slots())
    requires PlacedAt(DirCells(x0.heap, chain), items, i, n, locs)
    requires Zeroed(geo, x0, xz, last, c) && c !in chain && DirOk(xz.heap, chain, items, dir)
    ensures Editable(geo, xz.heap, chain, items, i, n, locs)
  {
    hide PlacedAt, DirHolds, Reads, Checked;
    DirCellsFrame(x0.heap, xz.heap, chain);
  }

  lemma {:induction false} MetaDoneRoot(geo: Geo, x0: Disk, xz: Disk, t: Tree, lay: Layout, d: nat)
    requires Appending(geo, x0, t, lay, d) && d == geo.root
    ensures MetaDone(geo, xz, xz, t, lay, d)
  {
    AppendingBasics(geo, x0, t, lay, d);
    hide Appending, SpaceOk;
    RootRef(geo, t, d);
  }

  lemma {:induction false} MetaDoneChild(geo: Geo, xz: Disk, x1: Disk, t: Tree, lay: Layout, dr: DirRef)
    requires dr.first in t.refs && BothAt(t, lay, t.refs[dr.first].0, t.refs[dr.first].1)
    requires
      var (p, i) := t.refs[dr.first];
      && dr.allocBytes == EntAt(t, p, i).size
      && Rewritten(xz, x1, t.own[p].chain, ItemStart(lay[p], i),
                   WithSize(lay[p][i].ents, (dr.allocBytes + geo.ClusBytes()) % TWO32))
    ensures MetaDone(geo, xz, x1, t, lay, dr.first)
  {
    hide Rewritten, WithSize;
  }

  /** Rewriting the parent's record keeps every entry visible. */
  lemma {:induction false} MetaTrace(geo: Geo, x0: Disk, xz: Disk, t: Tree, lay: Layout, dr: DirRef, c: nat, t0: Tree,
      trz: seq<Disk>, tr: seq<Disk>)
    requires Appending(geo, x0, t, lay, dr.first) && RefTo(geo, x0.heap, t, lay, dr) && !dr.isRoot
    requires 2 <= c < geo.Total() && c < |x0.bits| && !x0.bits[c] && dr.first in t.own && t.own[dr.first].chain != []
    requires Zeroed(geo, x0, xz, t.own[dr.first].chain[|t.own[dr.first].chain| - 1], c)
    requires Shows(xz, t0) && Since(t0, t, dr.first)
    requires dr.first in t.refs && BothAt(t, lay, t.refs[dr.first].0, t.refs[dr.first].1)
    requires
      var (p, i) := t.refs[dr.first];
      EditTrace(xz, trz, tr, t.own[p].chain, ItemStart(lay[p], i),
                WithSize(lay[p][i].ents, (dr.allocBytes + geo.ClusBytes()) % TWO32), dr.n)
    ensures ShownThrough(trz, tr, t0)
  {
    hide Appending, Zeroed, Shows, Since, RefTo, DirOk, Rewritten, WithSize, SetOk, Editable, EntryOf, RefsOk;
    var d := dr.first;
    var (p, i) := t.refs[d];
    MetaReady(geo, x0, xz, t, lay, dr, c);
    EditableSet(geo, xz.heap, t.own[p].chain, lay[p], i, dr.n, dr.locs);
    AppendingParent(geo, x0, t, lay, d);
    MetaLinks(geo, x0, xz, t, lay, d, c);
    forall j | |trz| <= j < |tr|
      ensures Shows(tr[j], t0)
    {
      var m := j - |trz| + 1;
      MetaShows(geo, xz, tr[j], t, lay, d, t0, m);
    }
  }

  lemma {:induction false} MetaLinks(geo: Geo, x0: Disk, xz: Disk, t: Tree, lay: Layout, d: nat, c: nat)
    requires Appending(geo, x0, t, lay, d) && d in t.refs && t.refs[d].0 in t.dirs && t.refs[d].0 != d
    requires 2 <= c < geo.Total() && c < |x0.bits| && !x0.bits[c] && d in t.own && t.own[d].chain != []
    requires Zeroed(geo, x0, xz, t.own[d].chain[|t.own[d].chain| - 1], c)
    ensures t.refs[d].0 in t.own && PathOf(xz.fat, t.own[t.refs[d].0].chain)
    ensures forall k, i :: k in t.own && k != t.refs[d].0 && 0 <= i < |t.own[k].chain| ==>
      t.own[k].chain[i] !in t.own[t.refs[d].0].chain
  {
    hide Appending, RefsOk, SpaceOk, PathOf, Placed;
    var p := t.refs[d].0;
    AppendingChain(geo, x0, t, lay, d, p);
    AppendingBasics(geo, x0, t, lay, d);
    FreeIsUnowned(geo, x0, t.own, t.at, c);
    SpacePlaced(geo, x0, t.own, t.at);
    forall k, i | k in t.own && k != p && 0 <= i < |t.own[k].chain|
      ensures t.own[k].chain[i] !in t.own[p].chain
    {
      OtherOwners(geo, x0, t.own, t.at, p, k);
    }
    forall i | 0 <= i < |t.own[p].chain|
      ensures t.own[p].chain[i] != c && t.own[p].chain[i] != t.own[d].chain[|t.own[d].chain| - 1]
    {
      GrowPlaces(t.own, t.at, d, p, i, c);
    }
    PathKept(x0.fat, xz.fat, t.own[p].chain);
  }

  lemma {:induction false} PathKept(fat: seq<nat>, fat': seq<nat>, chain: seq<nat>)
    requires PathOf(fat, chain) && |fat'| == |fat|
    requires forall i :: 0 <= i < |chain| && chain[i] < |fat| ==> fat'[chain[i]] == fat[chain[i]]
    ensures PathOf(fat', chain)
  {
  }
}
