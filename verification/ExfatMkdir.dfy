/** Making a directory: a zeroed cluster of its own first, then its entry set. */
module ExfatMkdir {
  import opened Arith
  import opened Bytes
  import opened ExfatNames
  import opened ExfatEntrySet
  import opened ExfatScan
  import opened ExfatSpace
  import opened ExfatHeap
  import opened ExfatTree
  import opened ExfatLayout
  import opened ExfatEdit
  import opened ExfatGrow
  import opened ExfatAppend
  import opened ExfatOps
  import opened ExfatStream
  import opened ExfatRemove
  import opened ExfatContents
  import opened ExfatTheorems
  import opened ExfatRename

  /** When a directory cannot be made: its parent is not there, the name is taken, or no end marker shows
      where to append. */
  ghost predicate MkdirRefused(geo: Geo, t: Tree, lay: Layout, path: Path)
    requires RefsOk(geo, t)
  {
    var d := ResolveDir(geo, t, Parent(path));
    d == None || Find(t.dirs[d.value], Base(path)) < |t.dirs[d.value]| || !HasEnd(geo, t, lay, d.value)
  }

  /** A zeroed cluster is a directory without entries. */
  lemma {:induction false} EmptyDirOk(heap: Heap, c: nat, b: seq<Byte>)
    requires c < |heap| && heap[c] == b && |b| >= 32 && b[0] == 0
    ensures DirOk(heap, [c], [], [])
  {
    assert [c][1..] == [];
    assert DirCells(heap, [c]) == ClusterCells(c, b) + [];
    assert SlotsOfCells(DirCells(heap, [c])[..0]) == AllSlots([]);
    assert DirCells(heap, [c])[0].slot == SlotAt(b, 0);
  }

  lemma {:induction false} LooseDirParts(t: Tree, c: nat)
    requires c !in t.own && c !in t.dirs && c !in t.loose
    ensures
      var t' := LooseDir(t, c);
      && t'.own == t.own[c := Owner([c], false)] && t'.at == t.at[c := (c, 0)]
      && t'.dirs == t.dirs[c := []] && t'.refs == t.refs && t'.loose == t.loose + {c}
      && (forall k <- t.depth :: k != c ==> k in t'.depth && t'.depth[k] == t.depth[k])
  {
  }

  /** Cluster c is free on a consistent volume. */
  ghost predicate FreshIn(geo: Geo, x: Disk, t: Tree, lay: Layout, c: nat) {
    && Inv(geo, x, t, lay) && 2 <= c < geo.Total() && c < |x.bits| && c < |x.fat| && c < |x.heap| && !x.bits[c]
  }

  lemma {:induction false} FreshDir(geo: Geo, x: Disk, t: Tree, lay: Layout, c: nat)
    requires FreshIn(geo, x, t, lay, c)
    ensures c !in t.own && c !in t.dirs && c !in t.loose && c !in t.at && geo.spc > 0
    ensures forall k, i :: k in t.own && 0 <= i < |t.own[k].chain| ==> t.own[k].chain[i] != c
  {
    hide SpaceOk, RefsOk, LayoutOk, Inv;
    InvParts(geo, x, t, lay);
    FreeOutside(geo, x, t.own, t.at, c);
    LooseOwned(geo, t);
  }

  /** The new directory's cluster joins the volume. */
  lemma {:induction false} LooseDirInv(geo: Geo, x: Disk, t: Tree, lay: Layout, c: nat)
    requires FreshIn(geo, x, t, lay, c)
    ensures Inv(geo, NewLoose(x, c, Zeros(geo.ClusBytes())), LooseDir(t, c), lay[c := []])
  {
    hide Inv, SpaceOk, RefsOk, LayoutOk, LooseDir, DirOk;
    InvParts(geo, x, t, lay);
    FreshDir(geo, x, t, lay, c);
    LooseDirParts(t, c);
    LooseDirKeepsRefs(geo, t, c);
    var b, t' := Zeros(geo.ClusBytes()), LooseDir(t, c);
    var y := NewLoose(x, c, b);
    StartSpace(geo, x, t, c, b);
    EmptyDirOk(y.heap, c, b);
    LayoutDirs(x.heap, t, lay);
    forall k | k in t'.dirs
      ensures k in t'.own && DirOk(y.heap, t'.own[k].chain, lay[c := []][k], t'.dirs[k])
    {
      if k != c {
        DirOkFrame(x.heap, y.heap, t.own[k].chain, lay[k], t.dirs[k]);
      }
    }
    LayoutIntro(y.heap, t', lay[c := []]);
    InvIntro(geo, y, t', lay[c := []]);
  }

  /** References to other directories stay good. */
  lemma {:induction false} RefToLoose(geo: Geo, x: Disk, t: Tree, lay: Layout, dr: DirRef, c: nat)
    requires FreshIn(geo, x, t, lay, c)
    requires RefTo(geo, x.heap, t, lay, dr)
    ensures RefTo(geo, NewLoose(x, c, Zeros(geo.ClusBytes())).heap, LooseDir(t, c), lay[c := []], dr)
  {
    hide Inv, PlacedAt, LooseDir, DirCells;
    FreshDir(geo, x, t, lay, c);
    LooseDirParts(t, c);
    if !dr.isRoot {
      var p := t.refs[dr.first].0;
      DirCellsFrame(x.heap, NewLoose(x, c, Zeros(geo.ClusBytes())).heap, t.own[p].chain);
    }
  }

  /** A cluster taken and given back leaves the volume as it was. */
  lemma {:induction false} ScratchInv(geo: Geo, x: Disk, y: Disk, t: Tree, lay: Layout, c: nat)
    requires FreshIn(geo, x, t, lay, c)
    requires y == WithCluster(x.(fat := x.fat[c := 0]), c, Zeros(geo.ClusBytes()))
    ensures Inv(geo, y, t, lay)
  {
    hide Inv, SpaceOk, RefsOk, LayoutOk;
    InvParts(geo, x, t, lay);
    FreshDir(geo, x, t, lay, c);
    ScratchSpace(geo, x, t.own, t.at, c);
    WithClusterSpace(geo, x.(fat := x.fat[c := 0]), t.own, t.at, c, Zeros(geo.ClusBytes()));
    LayoutFrame(x.heap, y.heap, t, t, lay);
    InvIntro(geo, y, t, lay);
  }

  lemma {:induction false} ScratchSpace(geo: Geo, x: Disk, own: Owners, at: Places, c: nat)
    requires SpaceOk(geo, x, own, at) && c < |x.fat| && c !in at
    ensures SpaceOk(geo, x.(fat := x.fat[c := 0]), own, at)
  {
    hide Charted;
    forall k | k in own
      ensures OwnerOk(x.fat[c := 0], own[k]) && own[k].chain[0] == k
    {
      Unrelated(own, at, x.fat, x.fat[c := 0], k, c);
    }
  }

  /** What a successful mkdir has done to the tree t0. */
  ghost predicate DirMade(geo: Geo, h0: Heap, t0: Tree, h: Heap, t: Tree, path: Path, c: nat)
    requires RefsOk(geo, t0)
  {
    && path != [] && Decodable(path[|path| - 1]) && ResolveDir(geo, t0, Parent(path)).Some? && c !in t0.own
    && var d := ResolveDir(geo, t0, Parent(path)).value;
       && d in t.dirs && c in t.dirs && t.dirs[c] == []
       && t.dirs[d] == t0.dirs[d] + [Some(Entry(ReadBack(path[|path| - 1]), true, c, geo.ClusBytes(), false))]
       && KeptExcept(t0, t, d, |t0.dirs[d]|) && ContentsKept(t0, h0, t, h, 0) && OwnersSame(t0, t, d, {c}) && c in t.own
  }

  lemma {:induction false} DirAttachable(geo: Geo, t0: Tree, t1: Tree, t: Tree, d: nat, c: nat, e: Entry)
    requires t1 == LooseDir(t0, c) && c !in t0.own && c !in t0.dirs && c !in t0.loose && GrownFrom(t1, t, d) && d != c
      && geo.Valid() && 0 < c < TWO32
    requires e.name != [] && e.isDir && !e.contig && e.first == c && e.size == geo.ClusBytes()
    ensures Attachable(geo, t, d, e)
  {
    assert SimilarAll(t1.dirs[c], t.dirs[c]);
  }

  lemma {:induction false} DirKept(t0: Tree, t1: Tree, t: Tree, d: nat, c: nat, e: Entry)
    requires t1 == LooseDir(t0, c) && c !in t0.own && c !in t0.dirs && d in t0.dirs
    requires d in t.dirs && d in t.depth && KeptExcept(t1, Attached(t, d, e), d, |t1.dirs[d]|)
    ensures KeptExcept(t0, Attached(t, d, e), d, |t0.dirs[d]|)
  {
    hide Attached;
  }

  lemma {:induction false} DirContents(x: Disk, t0: Tree, t1: Tree, c: nat, b: seq<Byte>, t: Tree, h: Heap)
    requires t1 == LooseDir(t0, c) && c !in t0.own && c !in t0.dirs && c !in t0.loose
    requires c < |x.fat| && c < |x.bits| && c < |x.heap| && 0 !in t1.own
    requires forall k, i :: k in t0.own && 0 <= i < |t0.own[k].chain| ==> t0.own[k].chain[i] != c
    requires ContentsKept(t1, NewLoose(x, c, b).heap, t, h, 0)
    ensures ContentsKept(t0, x.heap, t, h, 0)
  {
    assert ContentsKept(t0, x.heap, t1, NewLoose(x, c, b).heap, 0);
    hide LooseDir;
    ContentsTrans(t0, x.heap, t1, NewLoose(x, c, b).heap, t, h, 0);
  }

  /** With its entry set written the directory is part of the tree. */
  lemma {:induction false} DirDone(geo: Geo, x0: Disk, t0: Tree, lay0: Layout, c: nat, x: Disk, t: Tree, lay: Layout,
      d: nat, items: seq<Item>, ents: seq<Slot>, e: Entry, path: Path)
    requires FreshIn(geo, x0, t0, lay0, c)
    requires AppendDone(geo, x, t, lay, d, LooseDir(t0, c), NewLoose(x0, c, Zeros(geo.ClusBytes())).heap, items, ents)
    requires RefsOk(geo, t0) && ResolveDir(geo, t0, Parent(path)) == Some(d) && path != []
      && Spellable(path[|path| - 1])
    requires SetOk(ents) && EntryOf(ents) == e && e == Entry(ReadBack(path[|path| - 1]), true, c, geo.ClusBytes(),
      false)
    ensures d in t.dirs && d in t.depth
    ensures Inv(geo, x, Attached(t, d, e), lay[d := items + [Live(ents)]])
    ensures DirMade(geo, x0.heap, t0, x.heap, Attached(t, d, e), path, c)
  {
    hide Inv, AppendDone, GrownFrom, FilesKept, DirHolds, Appending, SetOk, EntryOf, RefsOk, Attachable, Attached,
      KeptExcept, ContentsKept, PutAll, Decode, ResolveDir, LooseDir;
    var t1, h1 := LooseDir(t0, c), NewLoose(x0, c, Zeros(geo.ClusBytes())).heap;
    FreshDir(geo, x0, t0, lay0, c);
    GeoOk(geo, x0, t0, lay0);
    DoneParts(geo, x, t, lay, d, t1, h1, items, ents);
    LooseDirParts(t0, c);
    DirAttachable(geo, t0, t1, t, d, c, e);
    AttachInv(geo, x, t, lay, d, e, ents);
    GrownKeepsAll(t1, t, d, e);
    DirKept(t0, t1, t, d, c, e);
    AppendContents(t1, h1, t, x.heap, d, e);
    DirContents(x0, t0, t1, c, Zeros(geo.ClusBytes()), Attached(t, d, e), x.heap);
    DirEmpty(t0, t1, t, d, c, e);
    DirOwners(t0, t1, t, d, c, e);
  }

  lemma {:induction false} DirOwners(t0: Tree, t1: Tree, t: Tree, d: nat, c: nat, e: Entry)
    requires t1 == LooseDir(t0, c) && GrownFrom(t1, t, d) && d in t.dirs && d in t.depth && c != d && c !in t0.own
    ensures OwnersSame(t0, Attached(t, d, e), d, {c}) && c in Attached(t, d, e).own
  {
    hide Since;
    GrownOwners(t1, t, d, e);
  }

  lemma {:induction false} GeoOk(geo: Geo, x: Disk, t: Tree, lay: Layout)
    requires Inv(geo, x, t, lay)
    ensures geo.Valid() && 0 !in t.own
  {
    hide SpaceOk, EntriesOk, LayoutOk;
  }

  lemma {:induction false} DirEmpty(t0: Tree, t1: Tree, t: Tree, d: nat, c: nat, e: Entry)
    requires t1 == LooseDir(t0, c) && GrownFrom(t1, t, d) && d in t.dirs && d in t.depth && d in t0.dirs && c != d
      && c !in t0.dirs && c !in t0.own
    ensures
      var t' := Attached(t, d, e);
      && d in t'.dirs && c in t'.dirs && t'.dirs[c] == [] && t'.dirs[d] == t0.dirs[d] + [Some(e)]
  {
    assert SimilarAll(t1.dirs[c], t.dirs[c]);
  }

  lemma {:induction false} StreamMade(geo: Geo, x0: Disk, t0: Tree, lay0: Layout, c: nat, h: Heap, t: Tree, d: nat,
      e: Entry, s: Stream, data: seq<Byte>)
    requires FreshIn(geo, x0, t0, lay0, c)
    requires StreamOk(geo, x0.heap, t0, s, data) && e.first == c && d in t0.dirs
    requires GrownFrom(LooseDir(t0, c), t, d) && FilesKept(LooseDir(t0, c),
      NewLoose(x0, c, Zeros(geo.ClusBytes())).heap, h)
    requires d in t.dirs && d in t.depth
    ensures StreamOk(geo, h, Attached(t, d, e), s, data)
  {
    hide Inv, RefsOk, StreamOk, LooseDir, Since;
    FreshDir(geo, x0, t0, lay0, c);
    InvRefs(geo, x0, t0, lay0);
    LooseOwned(geo, t0);
    LooseDirParts(t0, c);
    SinceKeys(LooseDir(t0, c), t, d);
    AttachedParts(t, d, e);
    AttachedDirs(t, d, e);
    hide Attached;
    StreamFile(geo, x0.heap, t0, s, data);
    StreamKept(geo, x0.heap, t0, h, Attached(t, d, e), s, data);
  }

  lemma {:induction false} AttachedDirs(t: Tree, d: nat, e: Entry)
    requires d in t.dirs && d in t.depth
    ensures Attached(t, d, e).dirs.Keys == t.dirs.Keys
  {
  }

  lemma {:induction false} GeoDisk(geo: Geo, x: Disk, t: Tree, lay: Layout)
    requires Inv(geo, x, t, lay)
    ensures geo.Valid() && DiskOk(geo, x)
  {
    hide RefsOk, LayoutOk;
  }

  lemma {:induction false} ScratchDisk(geo: Geo, x0: Disk, y: Disk, c: nat)
    requires c < |x0.fat| && c < |x0.bits| && c < |x0.heap| && !x0.bits[c]
    requires y == Disk(x0.fat[c := EOC_WRITE][c := 0], x0.bits[c := true][c := false],
      x0.heap[c := Zeros(geo.ClusBytes())])
    ensures y == WithCluster(x0.(fat := x0.fat[c := 0]), c, Zeros(geo.ClusBytes()))
  {
    assert x0.bits[c := true][c := false] == x0.bits;
    assert x0.fat[c := EOC_WRITE][c := 0] == x0.fat[c := 0];
  }

  lemma {:induction false} ScratchStream(geo: Geo, x0: Disk, y: Disk, t: Tree, lay: Layout, c: nat, s: Stream,
      data: seq<Byte>)
    requires FreshIn(geo, x0, t, lay, c)
    requires |y.heap| == |x0.heap| && forall i :: 0 <= i < |x0.heap| && i != c ==> y.heap[i] == x0.heap[i]
    requires StreamOk(geo, x0.heap, t, s, data)
    ensures StreamOk(geo, y.heap, t, s, data)
  {
    hide Inv, StreamOk, RefsOk;
    FreshDir(geo, x0, t, lay, c);
    InvRefs(geo, x0, t, lay);
    LooseOwned(geo, t);
    StreamKept(geo, x0.heap, t, y.heap, t, s, data);
  }

  lemma {:induction false} LooseDirAt(geo: Geo, x: Disk, t: Tree, lay: Layout, c: nat, d: nat)
    requires FreshIn(geo, x, t, lay, c) && d in t.own && d in lay
    ensures d != c && d in LooseDir(t, c).own && LooseDir(t, c).own[d] == t.own[d] && d in lay[c := []]
      && lay[c := []][d] == lay[d]
  {
    hide Inv;
    FreshDir(geo, x, t, lay, c);
  }

  lemma {:induction false} DoneGrown(geo: Geo, x: Disk, t: Tree, lay: Layout, d: nat, t0: Tree, h0: Heap,
      items: seq<Item>, ents: seq<Slot>)
    requires AppendDone(geo, x, t, lay, d, t0, h0, items, ents)
    ensures GrownFrom(t0, t, d) && FilesKept(t0, h0, x.heap)
  {
    hide Appending, GrownFrom, FilesKept, DirHolds;
  }

  lemma {:induction false} ResolvedListed(geo: Geo, t: Tree, path: Path, d: nat)
    requires RefsOk(geo, t) && ResolveDir(geo, t, path) == Some(d)
    ensures d in t.dirs
  {
    hide RefsOk;
  }
}
