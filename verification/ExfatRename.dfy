/** Renaming inside a directory: a second entry set first, then the old one is retired. */
module ExfatRename {
  import opened Arith
  import opened Bytes
  import opened ExfatNames
  import opened ExfatEntrySet
  import opened ExfatScan
  import opened ExfatSpace
  import opened ExfatHeap
  import opened ExfatTree
  import opened ExfatLayout
  import opened ExfatEdit
  import opened ExfatGrow
  import opened ExfatAppend
  import opened ExfatOps
  import opened ExfatStream
  import opened ExfatRemove
  import opened ExfatContents
  import opened ExfatCursor
  import opened ExfatTheorems

  const RENAME_MAX: nat := 200

  /** Characters a new name may not contain. */
  predicate Forbidden(c: Byte) {
    c < 0x20 || c in [0x2F, 0x5C, 0x3A, 0x2A, 0x3F, 0x22, 0x3C, 0x3E, 0x7C]
  }

  predicate AcceptableName(name: Name) {
    1 <= |name| <= RENAME_MAX && forall i :: 0 <= i < |name| ==> !Forbidden(name[i])
  }

  /** Up to 200 bytes; no control characters and none of / \ : * ? " < > | */
  lemma {:induction false} AcceptableExact(name: Name)
    ensures AcceptableName(name) <==>
      1 <= |name| <= 200 && forall c <- name :: c >= 32 && c !in {34, 42, 47, 58, 60, 62, 63, 92, 124}
  {
    forall c: Byte
      ensures Forbidden(c) <==> c < 32 || c in {34, 42, 47, 58, 60, 62, 63, 92, 124}
    {
    }
    assert forall i :: 0 <= i < |name| ==> name[i] in name;
  }

  // ---- The old set's places after the append ----------------------------------------------

  /** Places in a directory stay what they are when the directory grows. */
  lemma {:induction false} PlacesKept(h0: Heap, h1: Heap, chain0: seq<nat>, chain1: seq<nat>, k: nat)
    requires chain0 <= chain1 && k > 0
    requires InHeap(h0, chain0) && Covers(h0, chain0, k) && InHeap(h1, chain1) && Covers(h1, chain1, k)
    ensures |DirCells(h0, chain0)| <= |DirCells(h1, chain1)|
    ensures LocsOf(DirCells(h1, chain1))[..|DirCells(h0, chain0)|] == LocsOf(DirCells(h0, chain0))
  {
    hide ClusterCells, DirCells, Covers;
    DirCellsSize(h0, chain0, k);
    DirCellsSize(h1, chain1, k);
    var c0, c1 := DirCells(h0, chain0), DirCells(h1, chain1);
    MulAtLeastMul(|chain0|, |chain1|, k);
    forall q | 0 <= q < |c0|
      ensures c1[q].loc == c0[q].loc
    {
      var ci, j := RowOf(q, k, |chain0|);
      DirCellAt(h0, chain0, k, ci, j);
      DirCellAt(h1, chain1, k, ci, j);
    }
  }

  lemma {:induction false} PlacedLater(c0: seq<Cell>, c1: seq<Cell>, items: seq<Item>, more: seq<Item>, i: nat, n: nat,
      locs: seq<Loc>)
    requires PlacedAt(c0, items, i, n, locs) && |c0| <= |c1| && LocsOf(c1)[..|c0|] == LocsOf(c0)
    ensures PlacedAt(c1, items + more, i, n, locs)
  {
    hide SetOk, LocsOf;
    assert (items + more)[..i] == items[..i] && (items + more)[i] == items[i];
    var a := ItemStart(items, i);
    assert LocsOf(c1)[..|c0|][a..a + n] == LocsOf(c1)[a..a + n];
  }

  lemma {:induction false} EditableParts(geo: Geo, heap: Heap, chain: seq<nat>, items: seq<Item>, i: nat, n: nat,
      locs: seq<Loc>)
    requires Editable(geo, heap, chain, items, i, n, locs)
    ensures geo.Slots() > 0 && InHeap(heap, chain) && Covers(heap, chain, geo.Slots())
    ensures PlacedAt(DirCells(heap, chain), items, i, n, locs)
  {
  }

  lemma {:induction false} EditableIntro(geo: Geo, heap: Heap, chain: seq<nat>, items: seq<Item>, i: nat, n: nat,
      locs: seq<Loc>)
    requires geo.Slots() > 0 && Distinct(chain) && InHeap(heap, chain) && Covers(heap, chain, geo.Slots())
    requires DirHolds(heap, chain, items) && PlacedAt(DirCells(heap, chain), items, i, n, locs)
    ensures Editable(geo, heap, chain, items, i, n, locs)
  {
    hide DirHolds, PlacedAt;
  }

  lemma {:induction false} GrownChain(t0: Tree, t: Tree, d: nat)
    requires GrownFrom(t0, t, d)
    ensures d in t0.own && d in t.own && t0.own[d].chain <= t.own[d].chain
  {
  }

  /** After the new set is appended the old set can still be edited where it was found. */
  lemma {:induction false} OldEditable(geo: Geo, h0: Heap, x: Disk, t0: Tree, t: Tree, lay: Layout, d: nat,
      items: seq<Item>, ents: seq<Slot>, i: nat, n: nat, locs: seq<Loc>)
    requires AppendDone(geo, x, t, lay, d, t0, h0, items, ents) && d in t0.own && d in t.own
    requires Editable(geo, h0, t0.own[d].chain, items, i, n, locs)
    ensures Editable(geo, x.heap, t.own[d].chain, items + [Live(ents)], i, n, locs)
  {
    hide Appending, AppendDone, GrownFrom, FilesKept, DirHolds, PlacedAt, Editable, RefsOk, PathOf;
    DoneParts(geo, x, t, lay, d, t0, h0, items, ents);
    GrownChain(t0, t, d);
    EditableParts(geo, h0, t0.own[d].chain, items, i, n, locs);
    AppendingChain(geo, x, t, lay, d, d);
    PlacesKept(h0, x.heap, t0.own[d].chain, t.own[d].chain, geo.Slots());
    PlacedLater(DirCells(h0, t0.own[d].chain), DirCells(x.heap, t.own[d].chain), items, [Live(ents)], i, n, locs);
    EditableIntro(geo, x.heap, t.own[d].chain, items + [Live(ents)], i, n, locs);
  }

  // ---- Retiring the old set ------------------------------------------------------------------

  function RenamedItems(items: seq<Item>, ents: seq<Slot>, i: nat): seq<Item>
    requires i < |items| && items[i].Live?
  {
    (items + [Live(ents)])[i := RetiredItem(items[i])]
  }

  lemma {:induction false} RenamedLast(items: seq<Item>, ents: seq<Slot>, i: nat)
    requires i < |items| && items[i].Live?
    ensures RenamedItems(items, ents, i) != []
      && RenamedItems(items, ents, i)[|RenamedItems(items, ents, i)| - 1] == Live(ents)
  {
  }

  lemma {:induction false} RenamedParts(t: Tree, d: nat, i: nat, e: Entry)
    requires EntryAt(t, d, i)
    ensures
      var t' := Renamed(t, d, i, e);
      && t'.own == t.own && t'.at == t.at && t'.loose == t.loose && t'.dirs.Keys == t.dirs.Keys
      && t'.dirs[d] == (t.dirs[d] + [Some(e)])[i := None]
      && forall k <- t.dirs :: k != d ==> t'.dirs[k] == t.dirs[k]
  {
  }

  /** With the old set retired the volume is consistent again, and the entry has its new name. */
  lemma {:induction false} RenameInv(geo: Geo, h0: Heap, x: Disk, y: Disk, t0: Tree, t: Tree, lay: Layout, d: nat,
      i: nat, items: seq<Item>, ents: seq<Slot>, e: Entry)
    requires AppendDone(geo, x, t, lay, d, t0, h0, items, ents) && d in t.own
    requires EntryAt(t, d, i) && e.name != [] && e == EntAt(t, d, i).(name := e.name)
    requires SetOk(ents) && EntryOf(ents) == e && i < |items| && items[i].Live?
    requires Rewritten(x, y, t.own[d].chain, ItemStart(items + [Live(ents)], i), RetiredAll(items[i].ents))
    ensures Inv(geo, y, Renamed(t, d, i, e), lay[d := RenamedItems(items, ents, i)])
  {
    hide Appending, AppendDone, GrownFrom, FilesKept, DirHolds, RefsOk, Rewritten, RetiredAll, SetOk, EntryOf, Renamed,
      SpaceOk, Reads, Checked, DirOk;
    DoneParts(geo, x, t, lay, d, t0, h0, items, ents);
    AppendingBasics(geo, x, t, lay, d);
    RenameKeepsRefs(geo, t, d, i, e);
    RenamedParts(t, d, i, e);
    RewrittenSpace(geo, x, y, t.own, t.at, t.own[d].chain, ItemStart(items + [Live(ents)], i),
      RetiredAll(items[i].ents));
    RenameLayout(geo, x, y, t, lay, d, i, items, ents, e);
    InvIntro(geo, y, Renamed(t, d, i, e), lay[d := RenamedItems(items, ents, i)]);
  }

  lemma {:induction false} OtherDirKept(geo: Geo, x: Disk, y: Disk, t: Tree, lay: Layout, d: nat, k: nat, start: nat,
      slots: seq<Slot>)
    requires Appending(geo, x, t, lay, d) && d in t.own && k in t.dirs && k != d
    requires Rewritten(x, y, t.own[d].chain, start, slots)
    ensures k in t.own && k in lay && DirOk(y.heap, t.own[k].chain, lay[k], t.dirs[k])
  {
    hide Appending, RefsOk, Rewritten, SpaceOk, Reads, Checked, DirOk;
    AppendingBasics(geo, x, t, lay, d);
    AppendingDir(geo, x, t, lay, d, k);
    OtherOwners(geo, x, t.own, t.at, d, k);
    RewrittenFrame(x, y, t.own[d].chain, start, slots);
    AppendingChain(geo, x, t, lay, d, k);
    DirOkFrame(x.heap, y.heap, t.own[k].chain, lay[k], t.dirs[k]);
  }

  lemma {:induction false} RenameLayout(geo: Geo, x: Disk, y: Disk, t: Tree, lay: Layout, d: nat, i: nat,
      items: seq<Item>, ents: seq<Slot>, e: Entry)
    requires Appending(geo, x, t, lay, d) && d in t.own && d in lay && lay[d] == items
    requires InHeap(x.heap, t.own[d].chain) && DirHolds(x.heap, t.own[d].chain, items + [Live(ents)])
    requires EntryAt(t, d, i) && SetOk(ents) && EntryOf(ents) == e && i < |items| && items[i].Live?
    requires Rewritten(x, y, t.own[d].chain, ItemStart(items + [Live(ents)], i), RetiredAll(items[i].ents))
    ensures LayoutOk(y.heap, Renamed(t, d, i, e), lay[d := RenamedItems(items, ents, i)])
  {
    hide Appending, DirHolds, RefsOk, Rewritten, RetiredAll, SetOk, EntryOf, Renamed, SpaceOk, Reads, Checked, DirOk,
      RenamedItems, LayoutOk;
    AppendingBasics(geo, x, t, lay, d);
    RenamedParts(t, d, i, e);
    var t', lay' := Renamed(t, d, i, e), lay[d := RenamedItems(items, ents, i)];
    forall k | k in t'.dirs
      ensures k in t'.own && DirOk(y.heap, t'.own[k].chain, lay'[k], t'.dirs[k])
    {
      if k == d {
        RenamedDir(x, y, t.own[d].chain, items, t.dirs[d], ents, i, e);
      } else {
        OtherDirKept(geo, x, y, t, lay, d, k, ItemStart(items + [Live(ents)], i), RetiredAll(items[i].ents));
      }
    }
    LayoutIntro(y.heap, t', lay');
  }

  lemma {:induction false} RewrittenSpace(geo: Geo, x: Disk, y: Disk, own: Owners, at: Places, chain: seq<nat>,
      start: nat, slots: seq<Slot>)
    requires SpaceOk(geo, x, own, at) && Rewritten(x, y, chain, start, slots)
    ensures SpaceOk(geo, y, own, at)
  {
    hide SpaceOk;
    SpaceHeap(geo, x, y, own, at);
  }

  lemma {:induction false} RenamedDir(x: Disk, y: Disk, chain: seq<nat>, items: seq<Item>, dir: Dir, ents: seq<Slot>,
      i: nat, e: Entry)
    requires InHeap(x.heap, chain) && DirHolds(x.heap, chain, items + [Live(ents)])
    requires Reads(items, dir) && Checked(items) && SetOk(ents) && EntryOf(ents) == e && i < |items| && items[i].Live?
    requires Rewritten(x, y, chain, ItemStart(items + [Live(ents)], i), RetiredAll(items[i].ents))
    ensures DirOk(y.heap, chain, RenamedItems(items, ents, i), (dir + [Some(e)])[i := None])
  {
    hide DirHolds, Reads, Checked, Rewritten, RetiredAll, SetOk, EntryOf;
    ReadsPlus(items, dir, ents, e);
    RetiredHolds(x, y, chain, items + [Live(ents)], dir + [Some(e)], i);
  }

  // ---- Every state on the way --------------------------------------------------------------

  /** Once the old File entry is retired, the directory shows the new name instead. */
  lemma {:induction false} RetiringDir(x: Disk, y: Disk, chain: seq<nat>, items: seq<Item>, dir: Dir, ents: seq<Slot>,
      i: nat, e: Entry, m: nat)
    requires InHeap(x.heap, chain) && DirHolds(x.heap, chain, items + [Live(ents)])
    requires Reads(items, dir) && Checked(items) && SetOk(ents) && EntryOf(ents) == e && i < |items| && items[i].Live?
    requires SetOk(items[i].ents)
    requires 0 < m <= |items[i].ents| && PathOf(y.fat, chain) && |y.heap| == |y.fat|
    requires Rewritten(x, y, chain, ItemStart(items + [Live(ents)], i), RetiredAll(items[i].ents)[..m])
    ensures ShowsDir(y, chain, (dir + [Some(e)])[i := None])
  {
    hide DirHolds, Reads, Checked, Rewritten, RetiredAll, SetOk, EntryOf, ShowsItems, ItemOk, PathOf, SimilarAll;
    ReadsPlus(items, dir, ents, e);
    ReadsSize(items, dir);
    MixedRetired(items[i].ents, m);
    var it := Dead(Mixed(RetiredAll(items[i].ents), items[i].ents, m));
    EditShows(x, y, chain, items + [Live(ents)], dir + [Some(e)], i, RetiredAll(items[i].ents)[..m], it, None);
    SimilarRefl((dir + [Some(e)])[i := None]);
  }

  lemma {:induction false} RetiringShows(geo: Geo, h0: Heap, x: Disk, y: Disk, t0: Tree, t: Tree, lay: Layout, d: nat,
      i: nat, items: seq<Item>, ents: seq<Slot>, e: Entry, m: nat)
    requires AppendDone(geo, x, t, lay, d, t0, h0, items, ents) && d in t.own
    requires EntryAt(t, d, i) && SetOk(ents) && EntryOf(ents) == e && i < |items| && items[i].Live?
      && SetOk(items[i].ents)
    requires 0 < m <= |items[i].ents|
    requires Rewritten(x, y, t.own[d].chain, ItemStart(items + [Live(ents)], i), RetiredAll(items[i].ents)[..m])
    ensures Shows(y, Renamed(t, d, i, e))
  {
    hide Appending, AppendDone, GrownFrom, FilesKept, DirHolds, RefsOk, Rewritten, RetiredAll, SetOk, EntryOf, Renamed,
      SpaceOk, Reads, Checked, DirOk, PathOf, ShowsDir;
    DoneParts(geo, x, t, lay, d, t0, h0, items, ents);
    AppendingBasics(geo, x, t, lay, d);
    RenamedParts(t, d, i, e);
    RewrittenFrame(x, y, t.own[d].chain, ItemStart(items + [Live(ents)], i), RetiredAll(items[i].ents)[..m]);
    var t' := Renamed(t, d, i, e);
    forall k | k in t'.dirs
      ensures k in t'.own && ShowsDir(y, t'.own[k].chain, t'.dirs[k])
    {
      AppendingChain(geo, x, t, lay, d, k);
      if k == d {
        RetiringDir(x, y, t.own[d].chain, items, t.dirs[d], ents, i, e, m);
      } else {
        AppendingDir(geo, x, t, lay, d, k);
        OtherOwners(geo, x, t.own, t.at, d, k);
        DirShows(x, t.own[k].chain, lay[k], t.dirs[k]);
        ShowsDirFrame(x, y, t.own[k].chain, t.dirs[k]);
      }
    }
    AppendingSizes(geo, x, t, lay, d);
  }

  lemma {:induction false} AppendingSizes(geo: Geo, x: Disk, t: Tree, lay: Layout, d: nat)
    requires Appending(geo, x, t, lay, d)
    ensures |x.heap| == |x.fat|
  {
    hide RefsOk, Reads, Checked;
    AppendingBasics(geo, x, t, lay, d);
  }

  // ---- What the names mean afterwards --------------------------------------------------------

  /** Directories get deeper along a path. */
  lemma {:induction false} DepthGrows(geo: Geo, t: Tree, path: Path, n: nat)
    requires RefsOk(geo, t) && n <= |path| && ResolveDir(geo, t, path).Some?
    ensures ResolveDir(geo, t, path[..n]).Some?
    ensures
      var a, b := ResolveDir(geo, t, path[..n]).value, ResolveDir(geo, t, path).value;
      a in t.depth && b in t.depth && t.depth[a] <= t.depth[b] && (n < |path| ==> t.depth[a] < t.depth[b])
    decreases |path|
  {
    if n == |path| {
      assert path[..n] == path;
      hide RefsOk, EntriesOk;
      DirDepth(geo, t, ResolveDir(geo, t, path).value);
    } else {
      hide RefsOk;
      var up := path[..|path| - 1];
      assert up[..n] == path[..n];
      DepthGrows(geo, t, up, n);
      var at := Resolve(geo, t, path).value;
      ChildDepth(geo, t, at.0, at.1);
    }
  }

  lemma {:induction false} DirDepth(geo: Geo, t: Tree, k: nat)
    requires RefsOk(geo, t) && k in t.dirs
    ensures k in t.depth
  {
  }

  lemma {:induction false} ChildDepth(geo: Geo, t: Tree, k: nat, i: nat)
    requires RefsOk(geo, t) && EntryAt(t, k, i) && EntAt(t, k, i).isDir
    ensures
      var f := EntAt(t, k, i).first;
      f in t.depth && k in t.depth && t.depth[k] < t.depth[f]
  {
    ChildRef(geo, t, k, i);
    assert RefOk(geo, t, EntAt(t, k, i).first);
  }

  /** The path to a directory does not pass through an entry of that directory. */
  lemma {:induction false} NoCycle(geo: Geo, t: Tree, path: Path, d: nat, i: nat, n: nat)
    requires RefsOk(geo, t) && ResolveDir(geo, t, path) == Some(d) && EntryAt(t, d, i) && 0 < n <= |path|
    ensures Resolve(geo, t, path[..n]) != Some((d, i))
  {
    hide RefsOk, EntryOk;
    DepthGrows(geo, t, path, n);
    if EntAt(t, d, i).isDir {
      ChildDepth(geo, t, d, i);
    }
  }

  /** What a successful rename has done to the tree t0. */
  ghost predicate RenameDone(geo: Geo, h0: Heap, t0: Tree, h: Heap, t: Tree, up: Path, i: nat, e: Entry)
    requires RefsOk(geo, t0)
  {
    && ResolveDir(geo, t0, up).Some?
    && var d := ResolveDir(geo, t0, up).value;
       && EntryAt(t0, d, i) && e == EntAt(t0, d, i).(name := e.name)
       && d in t.dirs && t.dirs[d] == (t0.dirs[d] + [Some(e)])[i := None]
       && KeptExcept(t0, t, d, i) && ContentsKept(t0, h0, t, h, 0) && OwnersSame(t0, t, d, {})
  }

  lemma {:induction false} GrownRenamedKeeps(t0: Tree, t: Tree, d: nat, i: nat, e: Entry)
    requires GrownFrom(t0, t, d) && EntryAt(t, d, i)
    ensures KeptExcept(t0, Renamed(t, d, i, e), d, i)
  {
    forall k | k in t0.dirs
      ensures k in Renamed(t, d, i, e).dirs
      ensures SimilarDir(t0.dirs[k], Renamed(t, d, i, e).dirs[k], if k == d then i else |t0.dirs[k]|)
    {
      assert SimilarAll(t0.dirs[k], t.dirs[k]);
    }
  }

  lemma {:induction false} RenamedContents(t0: Tree, h0: Heap, t: Tree, h: Heap, d: nat, i: nat, e: Entry)
    requires GrownFrom(t0, t, d) && FilesKept(t0, h0, h) && EntryAt(t, d, i)
    ensures ContentsKept(t0, h0, Renamed(t, d, i, e), h, 0)
  {
    hide Since;
    SinceKeys(t0, t, d);
  }

  lemma {:induction false} SinceKeys(t0: Tree, t: Tree, d: nat)
    requires Since(t0, t, d)
    ensures t0.dirs.Keys == t.dirs.Keys
  {
  }

  /** The new path names the renamed entry. */
  lemma {:induction false} RenamedResolves(geo: Geo, h0: Heap, t0: Tree, h: Heap, t: Tree, up: Path, i: nat, e: Entry)
    requires RefsOk(geo, t0) && RefsOk(geo, t) && RenameDone(geo, h0, t0, h, t, up, i, e)
    requires Find(t0.dirs[ResolveDir(geo, t0, up).value], e.name) == |t0.dirs[ResolveDir(geo, t0, up).value]|
    ensures
      var d := ResolveDir(geo, t0, up).value;
      Resolve(geo, t, up + [e.name]) == Some((d, |t0.dirs[d]|)) && EntAt(t, d, |t0.dirs[d]|) == e
  {
    hide RefsOk, EntryOk, NameEq, KeptExcept, ContentsKept;
    var d := ResolveDir(geo, t0, up).value;
    RenamedParent(geo, h0, t0, h, t, up, i, e);
    FindRenamed(t0.dirs[d], i, e);
    assert (up + [e.name])[..|up + [e.name]| - 1] == up;
  }

  lemma {:induction false} RenamedParent(geo: Geo, h0: Heap, t0: Tree, h: Heap, t: Tree, up: Path, i: nat, e: Entry)
    requires RefsOk(geo, t0) && RefsOk(geo, t) && RenameDone(geo, h0, t0, h, t, up, i, e)
    ensures ResolveDir(geo, t, up) == ResolveDir(geo, t0, up)
  {
    hide RefsOk, EntryOk, KeptExcept, ContentsKept, Resolve, ResolveDir;
    var d := ResolveDir(geo, t0, up).value;
    forall n | 0 < n <= |up|
      ensures Resolve(geo, t0, up[..n]) != Some((d, i))
    {
      NoCycle(geo, t0, up, d, i, n);
    }
    ResolveDirKept(geo, t0, t, d, i, up);
  }

  lemma {:induction false} FindRenamed(dir: Dir, i: nat, e: Entry)
    requires i < |dir| && Find(dir, e.name) == |dir|
    ensures Find((dir + [Some(e)])[i := None], e.name) == |dir|
  {
    NameEqRefl(e.name);
    hide NameEq;
    var after := (dir + [Some(e)])[i := None];
    forall j | 0 <= j < |dir|
      ensures !Matches(after[j], e.name)
    {
      assert !Matches(dir[j], e.name);
    }
    FindIs(after, e.name, |dir|);
  }

  /** The old path names nothing any more, provided no other entry had the old name and the new
      name is a different one. */
  lemma {:induction false} OldNameGone(geo: Geo, h0: Heap, t0: Tree, h: Heap, t: Tree, path: Path, i: nat, e: Entry)
    requires RefsOk(geo, t0) && RefsOk(geo, t) && path != []
    requires RenameDone(geo, h0, t0, h, t, path[..|path| - 1], i, e) && Sole(geo, t0, path)
    requires i == Find(t0.dirs[ResolveDir(geo, t0, path[..|path| - 1]).value], path[|path| - 1])
    requires !NameEq(e.name, path[|path| - 1])
    ensures Resolve(geo, t, path) == None
  {
    hide RefsOk, EntryOk, NameEq, KeptExcept, ContentsKept;
    var up, base := path[..|path| - 1], path[|path| - 1];
    var d := ResolveDir(geo, t0, up).value;
    RenamedParent(geo, h0, t0, h, t, up, i, e);
    var after := (t0.dirs[d] + [Some(e)])[i := None];
    forall j | 0 <= j < |after|
      ensures !Matches(after[j], base)
    {
    }
    FindIs(after, base, |after|);
  }

  // ---- Safety of every state, and the finished rename --------------------------------------------

  /** On the raw device the old or the new path leads to the entry: the same first cluster, kind,
      allocation flag and, for a file, length. */
  ghost predicate RenameSafe(geo: Geo, x: Disk, oldPath: Path, newPath: Path, e0: Entry, e: Entry) {
    && |x.fat| == |x.heap|
    && (|| (RawResolve(geo, x, oldPath).Some? && Similar(Some(e0), RawResolve(geo, x, oldPath)))
        || (RawResolve(geo, x, newPath).Some? && Similar(Some(e), RawResolve(geo, x, newPath))))
  }

  ghost predicate SafeThrough(geo: Geo, before: seq<Disk>, tr: seq<Disk>, oldPath: Path, newPath: Path, e0: Entry,
      e: Entry) {
    forall j :: |before| <= j < |tr| ==> RenameSafe(geo, tr[j], oldPath, newPath, e0, e)
  }

  lemma {:induction false} OwnFirst(geo: Geo, x: Disk, t: Tree, lay: Layout)
    requires Inv(geo, x, t, lay)
    ensures RefsOk(geo, t) && forall k <- t.own :: t.own[k].chain != [] && t.own[k].chain[0] == k
  {
    hide RefsOk, LayoutOk;
  }

  lemma {:induction false} SafeByOld(geo: Geo, x: Disk, t: Tree, oldPath: Path, newPath: Path, e0: Entry, e: Entry)
    requires RefsOk(geo, t) && Shows(x, t) && forall k <- t.own :: t.own[k].chain != [] && t.own[k].chain[0] == k
    requires Resolve(geo, t, oldPath).Some? && EntAt(t, Resolve(geo, t, oldPath).value.0,
      Resolve(geo, t, oldPath).value.1) == e0
    ensures RenameSafe(geo, x, oldPath, newPath, e0, e)
  {
    hide RefsOk, EntryOk, RawResolve, Resolve;
    RawResolves(geo, x, t, oldPath);
    hide ShowsDir;
  }

  lemma {:induction false} SafeByNew(geo: Geo, x: Disk, t: Tree, oldPath: Path, newPath: Path, e0: Entry, e: Entry)
    requires RefsOk(geo, t) && Shows(x, t) && forall k <- t.own :: t.own[k].chain != [] && t.own[k].chain[0] == k
    requires Resolve(geo, t, newPath).Some? && EntAt(t, Resolve(geo, t, newPath).value.0,
      Resolve(geo, t, newPath).value.1) == e
    ensures RenameSafe(geo, x, oldPath, newPath, e0, e)
  {
    hide RefsOk, EntryOk, RawResolve, Resolve;
    RawResolves(geo, x, t, newPath);
    hide ShowsDir;
  }

  /** While the new set is written the old path works. */
  lemma {:induction false} SafeAppending(geo: Geo, before: seq<Disk>, tr: seq<Disk>, t: Tree, oldPath: Path,
      newPath: Path, e0: Entry, e: Entry)
    requires ShownThrough(before, tr, t)
    requires RefsOk(geo, t) && forall k <- t.own :: t.own[k].chain != [] && t.own[k].chain[0] == k
    requires Resolve(geo, t, oldPath).Some? && EntAt(t, Resolve(geo, t, oldPath).value.0,
      Resolve(geo, t, oldPath).value.1) == e0
    ensures Extends(before, tr) && |before| <= |tr| && SafeThrough(geo, before, tr, oldPath, newPath, e0, e)
  {
    hide RefsOk, Shows, Resolve, RenameSafe;
    forall j | |before| <= j < |tr|
      ensures RenameSafe(geo, tr[j], oldPath, newPath, e0, e)
    {
      SafeByOld(geo, tr[j], t, oldPath, newPath, e0, e);
    }
  }

  lemma {:induction false} SafeAll(geo: Geo, a: seq<Disk>, b: seq<Disk>, c: seq<Disk>, oldPath: Path, newPath: Path,
      e0: Entry, e: Entry)
    requires SafeThrough(geo, a, b, oldPath, newPath, e0, e) && SafeThrough(geo, b, c, oldPath, newPath, e0, e)
    requires |a| <= |b| && Extends(b, c)
    ensures SafeThrough(geo, a, c, oldPath, newPath, e0, e)
  {
    hide RenameSafe;
    forall j | |a| <= j < |c|
      ensures RenameSafe(geo, c[j], oldPath, newPath, e0, e)
    {
      if j < |b| {
        assert c[j] == c[..|b|][j] == b[j];
      }
    }
  }

  lemma {:induction false} FilesKeptRewritten(geo: Geo, h0: Heap, x: Disk, y: Disk, t0: Tree, t: Tree, d: nat,
      start: nat, slots: seq<Slot>)
    requires SpaceOk(geo, x, t.own, t.at) && GrownFrom(t0, t, d) && FilesKept(t0, h0, x.heap)
    requires d in t.own && Rewritten(x, y, t.own[d].chain, start, slots)
    ensures FilesKept(t0, h0, y.heap)
  {
    RewrittenFrame(x, y, t.own[d].chain, start, slots);
    hide Rewritten;
    forall k, i | k in t0.own && k !in t0.dirs && 0 <= i < |t0.own[k].chain|
      ensures t0.own[k].chain[i] !in t.own[d].chain
    {
      FileOwnerSame(t0, t, d, k);
      OtherOwners(geo, x, t.own, t.at, d, k);
    }
    hide SpaceOk, GrownFrom;
  }

  lemma {:induction false} FileOwnerSame(t0: Tree, t: Tree, d: nat, k: nat)
    requires GrownFrom(t0, t, d) && k in t0.own && k !in t0.dirs
    ensures k != d && k in t.own && t.own[k] == t0.own[k]
  {
  }

  lemma {:induction false} RenameDoneIntro(geo: Geo, h0: Heap, x: Disk, y: Disk, t0: Tree, t: Tree, lay: Layout,
      d: nat, i: nat, items: seq<Item>, ents: seq<Slot>, e: Entry, up: Path, start: nat, slots: seq<Slot>)
    requires AppendDone(geo, x, t, lay, d, t0, h0, items, ents) && d in t.own && EntryAt(t, d, i)
    requires RefsOk(geo, t0) && ResolveDir(geo, t0, up) == Some(d) && e == EntAt(t, d, i).(name := e.name)
    requires Rewritten(x, y, t.own[d].chain, start, slots)
    ensures RenameDone(geo, h0, t0, y.heap, Renamed(t, d, i, e), up, i, e)
  {
    hide Appending, AppendDone, GrownFrom, FilesKept, DirHolds, RefsOk, Rewritten, Renamed, SpaceOk, Reads, Checked,
      KeptExcept, ContentsKept, ResolveDir;
    DoneParts(geo, x, t, lay, d, t0, h0, items, ents);
    AppendingBasics(geo, x, t, lay, d);
    FilesKeptRewritten(geo, h0, x, y, t0, t, d, start, slots);
    GrownRenamedKeeps(t0, t, d, i, e);
    RenamedContents(t0, h0, t, y.heap, d, i, e);
    RenamedOwners(t0, t, d, i, e);
    RenamedParts(t, d, i, e);
  }

  lemma {:induction false} RenamedOwners(t0: Tree, t: Tree, d: nat, i: nat, e: Entry)
    requires GrownFrom(t0, t, d) && EntryAt(t, d, i)
    ensures OwnersSame(t0, Renamed(t, d, i, e), d, {})
  {
  }

  /** The result code of a rename, when the directory has room. */
  function RenameCode(geo: Geo, t: Tree, up: Path, base: Name, newName: Name): int
    requires RefsOk(geo, t)
  {
    if !AcceptableName(newName) then -2
    else
      var d := ResolveDir(geo, t, up);
      if d == None then -1
      else if Find(t.dirs[d.value], newName) < |t.dirs[d.value]| then -3
      else if Find(t.dirs[d.value], base) == |t.dirs[d.value]| then -1
      else 0
  }

  /** When a rename fails for a reason other than a full volume. */
  ghost predicate RenameRefused(geo: Geo, t: Tree, lay: Layout, path: Path, newName: Name)
    requires RefsOk(geo, t)
  {
    || RenameCode(geo, t, Parent(path), Base(path), newName) != 0
    || !HasEnd(geo, t, lay, ResolveDir(geo, t, Parent(path)).value)
  }

  lemma {:induction false} StreamRenamed(geo: Geo, h0: Heap, t0: Tree, x: Disk, y: Disk, t: Tree, lay: Layout, d: nat,
      i: nat, items: seq<Item>, ents: seq<Slot>, e: Entry, start: nat, slots: seq<Slot>, s: Stream, data: seq<Byte>)
    requires RefsOk(geo, t0) && StreamOk(geo, h0, t0, s, data)
    requires AppendDone(geo, x, t, lay, d, t0, h0, items, ents) && d in t.own && EntryAt(t, d, i)
    requires Rewritten(x, y, t.own[d].chain, start, slots)
    ensures StreamOk(geo, y.heap, Renamed(t, d, i, e), s, data)
  {
    hide Appending, AppendDone, GrownFrom, FilesKept, DirHolds, RefsOk, Rewritten, Renamed, SpaceOk, Reads, Checked,
      StreamOk;
    DoneParts(geo, x, t, lay, d, t0, h0, items, ents);
    AppendingBasics(geo, x, t, lay, d);
    FilesKeptRewritten(geo, h0, x, y, t0, t, d, start, slots);
    RenamedParts(t, d, i, e);
    StreamGrown(geo, h0, t0, y.heap, t, Renamed(t, d, i, e), d, s, data);
  }

  lemma {:induction false} LooseOwned(geo: Geo, t: Tree)
    requires RefsOk(geo, t)
    ensures t.loose <= t.own.Keys
  {
  }

  lemma {:induction false} StreamGrown(geo: Geo, h0: Heap, t0: Tree, h: Heap, t: Tree, t': Tree, d: nat, s: Stream,
      data: seq<Byte>)
    requires RefsOk(geo, t0) && StreamOk(geo, h0, t0, s, data) && GrownFrom(t0, t, d) && FilesKept(t0, h0, h)
    requires t'.own == t.own && t'.loose == t.loose && t'.dirs.Keys == t.dirs.Keys
    ensures StreamOk(geo, h, t', s, data)
  {
    hide StreamOk, RefsOk, Since;
    LooseOwned(geo, t0);
    SinceKeys(t0, t, d);
    StreamFile(geo, h0, t0, s, data);
    StreamKept(geo, h0, t0, h, t', s, data);
  }

  lemma {:induction false} RenameFields(geo: Geo, t: Tree, d: nat, i: nat)
    requires RefsOk(geo, t) && EntryAt(t, d, i)
    ensures EntAt(t, d, i).first < TWO32 && EntAt(t, d, i).size < TWO64
  {
    assert EntryOk(geo, t, d, i);
  }

  /** An accepted, well-formed name reads back as itself. */
  lemma {:induction false} AcceptableReadsBack(name: Name)
    requires Spellable(name) && WellFormed(name) && AcceptableName(name)
    ensures ReadBack(name) == name
  {
    SpellableUnits(name);
    hide Spellable, PutAll, StoredUnits;
    WellFormedSpellable(name);
  }

  lemma {:induction false} RenameReady(geo: Geo, h0: Heap, x: Disk, t0: Tree, t: Tree, lay: Layout, d: nat, i: nat,
      items: seq<Item>, ents: seq<Slot>, n: nat, locs: seq<Loc>)
    requires AppendDone(geo, x, t, lay, d, t0, h0, items, ents) && d in t0.own && d in t.own
    requires Editable(geo, h0, t0.own[d].chain, items, i, n, locs) && EntryAt(t0, d, i)
    ensures Editable(geo, x.heap, t.own[d].chain, items + [Live(ents)], i, n, locs)
    ensures i < |items| && items[i].Live? && SetOk(items[i].ents) && n == |items[i].ents|
    ensures EntryAt(t, d, i) && EntAt(t, d, i) == EntAt(t0, d, i) && d in lay
    ensures d in t.dirs && d in t0.dirs && t.dirs[d] == t0.dirs[d]
  {
    hide AppendDone, Editable, SetOk, GrownFrom, Appending;
    OldEditable(geo, h0, x, t0, t, lay, d, items, ents, i, n, locs);
    EditableSet(geo, h0, t0.own[d].chain, items, i, n, locs);
    DoneParts(geo, x, t, lay, d, t0, h0, items, ents);
  }

  /** While the old set is retired the new path works. */
  lemma {:induction false} SafeRetiring(geo: Geo, h0: Heap, x: Disk, y: Disk, t0: Tree, t: Tree, lay: Layout,
      lay': Layout, d: nat, i: nat, items: seq<Item>, ents: seq<Slot>, e: Entry, tr: seq<Disk>, tr': seq<Disk>,
      path: Path, n: nat, e0: Entry)
    requires AppendDone(geo, x, t, lay, d, t0, h0, items, ents) && d in t.own && d in t0.dirs
    requires EntryAt(t, d, i) && SetOk(ents) && EntryOf(ents) == e && i < |items| && items[i].Live?
      && SetOk(items[i].ents) && n == |items[i].ents|
    requires EditTrace(x, tr, tr', t.own[d].chain, ItemStart(items + [Live(ents)], i), RetiredAll(items[i].ents), n)
    requires Inv(geo, y, Renamed(t, d, i, e), lay') && RefsOk(geo, t0)
    requires RenameDone(geo, h0, t0, y.heap, Renamed(t, d, i, e), Parent(path), i, e)
      && ResolveDir(geo, t0, Parent(path)) == Some(d)
    requires Find(t0.dirs[d], e.name) == |t0.dirs[d]|
    ensures SafeThrough(geo, tr, tr', path, Parent(path) + [e.name], e0, e)
  {
    hide Inv, RefsOk, EntryOk, RenameDone, RenameSafe, AppendDone, Resolve, ResolveDir, Find, SetOk, EntryOf, Renamed,
      Rewritten, RetiredAll, Shows;
    OwnFirst(geo, y, Renamed(t, d, i, e), lay');
    RenamedResolves(geo, h0, t0, y.heap, Renamed(t, d, i, e), Parent(path), i, e);
    forall j | |tr| <= j < |tr'|
      ensures RenameSafe(geo, tr'[j], path, Parent(path) + [e.name], e0, e)
    {
      var m := j - |tr| + 1;
      RetiringShows(geo, h0, x, tr'[j], t0, t, lay, d, i, items, ents, e, m);
      SafeByNew(geo, tr'[j], Renamed(t, d, i, e), path, Parent(path) + [e.name], e0, e);
    }
  }

  lemma {:induction false} DoneOwn(geo: Geo, x: Disk, t: Tree, lay: Layout, d: nat, t0: Tree, h0: Heap,
      items: seq<Item>, ents: seq<Slot>)
    requires AppendDone(geo, x, t, lay, d, t0, h0, items, ents)
    ensures d in t.own
  {
    hide Appending, GrownFrom, FilesKept, DirHolds;
  }
}
