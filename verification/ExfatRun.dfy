/** Whole runs: any sequence of operations keeps every cluster with exactly one owner. */
module ExfatRun {
  import opened Bytes
  import opened ExfatNames
  import opened ExfatEntrySet
  import opened ExfatScan
  import opened ExfatSpace
  import opened ExfatHeap
  import opened ExfatTree
  import opened ExfatLayout
  import opened ExfatGrow
  import opened ExfatAppend
  import opened ExfatOps
  import opened ExfatContents
  import opened ExfatMkdir
  import opened ExfatTheorems
  import opened ExfatPasses
  import opened ExfatRename
  import opened ExfatStream
  import opened ExfatRemove
  import opened ExfatSubtree
  import opened ExfatCursor
  import opened ExfatVolume

  datatype Op =
    | Open(path: Path)
    | Append(data: seq<Byte>)
    | Close(commit: bool)
    | Write(path: Path, data: seq<Byte>)
    | MakeDir(path: Path)
    | Move(path: Path, name: Name)
    | Remove(path: Path)
    | Read(path: Path, offset: nat, len: nat)

  /** What the driver expects of its callers. */
  predicate Proper(op: Op) {
    match op
    case Open(path) => PathFits(path) && SpellablePath(path)
    case Append(_) => true
    case Close(_) => true
    case Write(path, _) => PathFits(path) && SpellablePath(path)
    case MakeDir(path) => PathFits(path) && SpellablePath(path)
    case Move(path, name) => PathFits(path) && (AcceptableName(name) ==> Spellable(name))
    case Remove(path) => PathFits(path)
    case Read(path, offset, len) => PathFits(path) && offset < TWO32 && len < TWO32
  }

  /** The i-th cluster of owner k is the j-th of owner l. */
  predicate SameCluster(own: Owners, k: nat, i: nat, l: nat, j: nat) {
    && k in own && l in own && i < |own[k].chain| && j < |own[l].chain|
    && own[k].chain[i] == own[l].chain[j]
  }

  /** A bitmap bit is set exactly for the system region and the clusters of some owner, and owners
      stay clear of the system region. */
  ghost predicate BitsOwned(geo: Geo, x: Disk, t: Tree) {
    && |x.bits| == geo.Total()
    && (forall c :: 2 <= c < geo.Total() ==>
          (x.bits[c] <==> c in geo.system || exists k :: k in t.own && c in t.own[k].chain))
    && (forall k, i :: k in t.own && 0 <= i < |t.own[k].chain| ==> t.own[k].chain[i] !in geo.system)
  }

  /** No cluster has two owners or two places in one: chains are disjoint and acyclic. */
  ghost predicate OneEach(own: Owners) {
    forall k: nat, i: nat, l: nat, j: nat :: SameCluster(own, k, i, l, j) ==> k == l && i == j
  }

  /** Owner k is what exactly one directory entry names. */
  ghost predicate NamedOnce(geo: Geo, t: Tree, k: nat) {
    exists d: nat, i: nat :: EntryAt(t, d, i) && EntAt(t, d, i).first == k
      && forall d': nat, i': nat :: EntryAt(t, d', i') && EntAt(t, d', i').first == k ==> (d', i') == (d, i)
  }

  /** Every cluster in use has one owner: the system region, a directory, a file, the open stream, or what
      a deletion has left without a name. */
  ghost predicate Owned(geo: Geo, x: Disk, t: Tree) {
    && BitsOwned(geo, x, t) && OneEach(t.own)
    && (forall k <- t.own :: OwnerOk(x.fat, t.own[k]))
    && (forall k <- t.own :: k == geo.root || k in t.loose || k in t.orphans || NamedOnce(geo, t, k))
  }

  lemma {:induction false} SpaceOwned(geo: Geo, x: Disk, t: Tree)
    requires SpaceOk(geo, x, t.own, t.at)
    ensures BitsOwned(geo, x, t) && forall k <- t.own :: OwnerOk(x.fat, t.own[k])
  {
    hide OwnerOk;
    forall c | 2 <= c < geo.Total()
      ensures x.bits[c] <==> c in geo.system || exists k :: k in t.own && c in t.own[k].chain
    {
      if x.bits[c] && c !in geo.system {
        assert c in t.own[t.at[c].0].chain;
      }
    }
  }

  lemma {:induction false} PlacesDiffer(own: Owners, at: Places)
    requires Placed(own, at)
    ensures OneEach(own)
  {
    forall k: nat, i: nat, l: nat, j: nat | SameCluster(own, k, i, l, j)
      ensures k == l && i == j
    {
      assert at[own[k].chain[i]] == (k, i) && at[own[l].chain[j]] == (l, j);
    }
  }

  lemma {:induction false} OwnerNamed(geo: Geo, t: Tree, k: nat)
    requires RefsOk(geo, t) && k in t.own && k != geo.root && k !in t.loose && k !in t.orphans
    ensures NamedOnce(geo, t, k)
  {
    assert RefOk(geo, t, k);
    var (d, i) := t.refs[k];
    forall d': nat, i': nat | EntryAt(t, d', i') && EntAt(t, d', i').first == k
      ensures (d', i') == (d, i)
    {
      assert EntryOk(geo, t, d', i');
    }
    assert EntryAt(t, d, i) && EntAt(t, d, i).first == k;
  }

  /** A consistent volume has all its clusters owned once. */
  lemma {:induction false} InvOwned(geo: Geo, x: Disk, t: Tree, lay: Layout)
    requires Inv(geo, x, t, lay)
    ensures Owned(geo, x, t)
  {
    hide Inv, SpaceOk, RefsOk, LayoutOk, OwnerOk, NamedOnce, BitsOwned, OneEach, Placed;
    InvParts(geo, x, t, lay);
    SpaceOwned(geo, x, t);
    SpacePlaced(geo, x, t.own, t.at);
    PlacesDiffer(t.own, t.at);
    forall k | k in t.own && k != geo.root && k !in t.loose && k !in t.orphans
      ensures NamedOnce(geo, t, k)
    {
      OwnerNamed(geo, t, k);
    }
  }

  /** In a consistent volume every live entry set, file or directory, carries the checksum of its
      current bytes. */
  lemma {:induction false} ChecksumsCurrent(geo: Geo, x: Disk, t: Tree, lay: Layout, d: nat, i: nat)
    requires Inv(geo, x, t, lay) && d in t.dirs && i < |t.dirs[d]| && t.dirs[d][i].Some?
    ensures d in lay && i < |lay[d]| && lay[d][i].Live?
    ensures |lay[d][i].ents| >= 2 && EntryOf(lay[d][i].ents) == t.dirs[d][i].value
    ensures Rd16(lay[d][i].ents[0], 2) == SetChecksum(lay[d][i].ents)
  {
    DirFacts(geo, x, t, lay, d);
    hide Inv, SetChecksum;
    LiveShape(lay[d], t.dirs[d], i);
  }

  // ---- A fresh volume ------------------------------------------------------------------------

  /** The device after formatting: only the system region and an empty root directory are in use. */
  function FreshDisk(geo: Geo): Disk {
    Disk(seq(geo.Total(), c => if c == geo.root then EOC_WRITE else 0),
         seq(geo.Total(), c => c == geo.root || c in geo.system),
         seq(geo.Total(), _ => Zeros(geo.ClusBytes())))
  }

  function FreshTree(geo: Geo): Tree {
    Tree(map[geo.root := Owner([geo.root], false)], map[geo.root := (geo.root, 0)], map[geo.root := []], map[], {},
      map[geo.root := 0], {})
  }

  function FreshLayout(geo: Geo): Layout { map[geo.root := []] }

  /** A fresh volume is consistent, so runs have somewhere to start. */
  lemma {:induction false} FreshVolume(geo: Geo)
    requires geo.Valid()
    ensures Inv(geo, FreshDisk(geo), FreshTree(geo), FreshLayout(geo)) && FreshTree(geo).loose == {}
  {
    hide Zeros, ClusterCells, SlotsOfCells;
    var x, chain := FreshDisk(geo), [geo.root];
    assert x.heap[geo.root] == Zeros(geo.ClusBytes());
    FreshCells(geo, x.heap);
    assert SlotsOfCells(DirCells(x.heap, chain)[..0]) == [] by { NoSlots(DirCells(x.heap, chain)[..0]); }
  }

  lemma {:induction false} NoSlots(cells: seq<Cell>)
    requires cells == []
    ensures SlotsOfCells(cells) == []
  {
  }

  lemma {:induction false} FreshCells(geo: Geo, heap: Heap)
    requires geo.Valid() && geo.root < |heap| && heap[geo.root] == Zeros(geo.ClusBytes())
    ensures InHeap(heap, [geo.root])
    ensures DirCells(heap, [geo.root]) != [] && DirCells(heap, [geo.root])[0].slot[0] == 0
  {
    var cells := ClusterCells(geo.root, heap[geo.root]);
    assert [geo.root][1..] == [];
    assert DirCells(heap, [geo.root]) == cells;
    assert |cells| == geo.Slots() > 0;
    assert cells[0].slot[0] == heap[geo.root][0] == 0;
  }

  // ---- Runs ----------------------------------------------------------------------------------

  /** Would a directory take one more entry? */
  method HasRoom(v: Volume, up: Path) returns (room: bool)
    requires v.Valid()
    ensures RefsOk(v.geo, v.tree)
    ensures room <==>
      var d := ResolveDir(v.geo, v.tree, up);
      d.Some? && HasEnd(v.geo, v.tree, v.lay, d.value)
  {
    hide Inv, RefsOk, Scan, HasEnd;
    InvRefs(v.geo, v.disk, v.tree, v.lay);
    var dr := v.DirRefResolve(up);
    if dr == None {
      return false;
    }
    EndExact(v.geo, v.disk, v.tree, v.lay, dr.value.first);
    var sc, _ := v.ScanDir(dr.value.first, None);
    return sc.end.Eod?;
  }

  /** Is there an entry of this name? */
  method IsTaken(v: Volume, up: Path, name: Name) returns (taken: bool)
    requires v.Valid()
    ensures RefsOk(v.geo, v.tree)
    ensures taken <==>
      var d := ResolveDir(v.geo, v.tree, up);
      d.Some? && Find(v.tree.dirs[d.value], name) < |v.tree.dirs[d.value]|
  {
    hide Inv, RefsOk, Scan, Find;
    InvRefs(v.geo, v.disk, v.tree, v.lay);
    var dr := v.DirRefResolve(up);
    if dr == None {
      return false;
    }
    LookupCases(v.geo, v.disk, v.tree, v.lay, dr.value.first, name);
    var sc, _ := v.ScanDir(dr.value.first, Some(name));
    return sc.Hit?;
  }

  /** What a rename asks for besides space. */
  lemma {:induction false} RenameCases(geo: Geo, t: Tree, lay: Layout, path: Path, name: Name)
    requires RefsOk(geo, t)
    ensures
      var d := ResolveDir(geo, t, Parent(path));
      !RenameRefused(geo, t, lay, path, name) <==>
        && AcceptableName(name) && d.Some? && HasEnd(geo, t, lay, d.value)
        && Find(t.dirs[d.value], name) == |t.dirs[d.value]| && Find(t.dirs[d.value], Base(path)) < |t.dirs[d.value]|
  {
    hide RefsOk, ResolveDir, Find, HasEnd;
  }

  /** A path that cannot be deleted leads to a directory with entries. */
  lemma {:induction false} FullDir(geo: Geo, t: Tree, path: Path)
    requires RefsOk(geo, t) && path != []
    ensures DeleteCode(geo, t, path) == -2 <==>
      ResolveDir(geo, t, path).Some? && Entries(t.dirs[ResolveDir(geo, t, path).value]) != []
  {
    var at := Resolve(geo, t, path);
    if at.Some? && EntAt(t, at.value.0, at.value.1).isDir {
      ChildRef(geo, t, at.value.0, at.value.1);
      EntriesNone(t.dirs[EntAt(t, at.value.0, at.value.1).first]);
    }
    hide RefsOk, EntryOk, Entries, NoEntries;
  }

  // ---- Owners that lose their names ------------------------------------------------------------

  /** The operations that leave clusters in use which nothing names: those that delete such an entry. */
  ghost predicate Harms(geo: Geo, t: Tree, busy: bool, op: Op)
    requires RefsOk(geo, t)
  {
    match op
    case Open(path) => !busy && DeleteCode(geo, t, path) == 0 && DeleteHarms(geo, t, path, 0)
    case Write(path, _) => !busy && DeleteCode(geo, t, path) == 0 && DeleteHarms(geo, t, path, 0)
    case Remove(path) => DeleteHarms(geo, t, path, MAX_PASSES)
    case Append(_) => false
    case Close(_) => false
    case MakeDir(_) => false
    case Move(_, _) => false
    case Read(_, _, _) => false
  }

  /** No stream can be opened now. */
  predicate Busy(geo: Geo, active: bool) { active || geo.ClusBytes() > STREAM_BUFFER }

  /** Owners only lose names, and lose none exactly when the operation is harmless. */
  ghost predicate NamesKept(geo: Geo, t: Tree, t': Tree, busy: bool, op: Op)
    requires RefsOk(geo, t)
  {
    t.orphans <= t'.orphans && (t'.orphans == t.orphans <==> !Harms(geo, t, busy, op))
  }

  lemma {:induction false} NamesSame(geo: Geo, t: Tree, t': Tree, busy: bool, op: Op)
    requires RefsOk(geo, t) && t'.orphans == t.orphans && !op.Open? && !op.Write? && !op.Remove?
    ensures NamesKept(geo, t, t', busy, op)
  {
    hide RefsOk, DeleteHarms, DeleteCode;
  }

  lemma {:induction false} FrameNames(t0: Tree, f0: nat, h0: Heap, t: Tree, f: nat, h: Heap)
    requires StreamFrame(t0, f0, h0, t, f, h)
    ensures t.orphans == t0.orphans
  {
    SansOrphans(t0, f0);
    SansOrphans(t, f);
    hide Sans, HeapKept;
  }

  lemma {:induction false} CommitNames(geo: Geo, h0: Heap, t0: Tree, h: Heap, t: Tree, path: Path, first: nat,
      data: seq<Byte>)
    requires RefsOk(geo, t0) && Committed(geo, h0, t0, h, t, path, first, data)
    ensures t.orphans == t0.orphans
  {
    hide RefsOk, ResolveDir, KeptExcept, ContentsKept, InHeap, ChainBytes, PutAll, Decode;
  }

  lemma {:induction false} MadeNames(geo: Geo, h0: Heap, t0: Tree, h: Heap, t: Tree, path: Path)
    requires RefsOk(geo, t0) && exists c :: DirMade(geo, h0, t0, h, t, path, c)
    ensures t.orphans == t0.orphans
  {
    hide RefsOk, ResolveDir, KeptExcept, ContentsKept, PutAll, Decode;
  }

  lemma {:induction false} RenameNames(geo: Geo, h0: Heap, t0: Tree, h: Heap, t: Tree, up: Path)
    requires RefsOk(geo, t0) && exists i: nat, e: Entry :: RenameDone(geo, h0, t0, h, t, up, i, e)
    ensures t.orphans == t0.orphans
  {
    hide RefsOk, ResolveDir, KeptExcept, ContentsKept;
  }

  /** Opening a stream to a path deletes what is there. */
  lemma {:induction false} OpenNames(geo: Geo, x: Disk, t: Tree, lay: Layout, y: Disk, t': Tree, busy: bool, op: Op,
      path: Path)
    requires Inv(geo, x, t, lay) && RefsOk(geo, t) && (op == Op.Open(path) || (op.Write? && op.path == path))
    requires busy || DeleteCode(geo, t, path) != 0 ==> t'.orphans == t.orphans
    requires !busy && DeleteCode(geo, t, path) == 0 ==>
      exists t1: Tree :: t1.orphans == t'.orphans && Deleted(geo, x, t, y, t1, path)
    ensures NamesKept(geo, t, t', busy, op)
  {
    hide Inv, RefsOk, DeleteHarms, DeleteCode, Deleted;
    if !busy && DeleteCode(geo, t, path) == 0 {
      var t1: Tree :| t1.orphans == t'.orphans && Deleted(geo, x, t, y, t1, path);
      OneHarms(geo, x, t, lay, y, t1, path, 0);
    }
  }

  // ---- What an operation does --------------------------------------------------------------------

  /** A moment of a run: the volume, its device and the open stream. */
  datatype Situation = Situation(tree: Tree, busy: bool, disk: Disk, lay: Layout, trace: seq<Disk>, active: bool,
      path: Path, data: seq<Byte>, first: nat)

  ghost function Now(v: Volume): Situation
    reads v
  {
    Situation(v.tree, Busy(v.geo, v.wsActive), v.disk, v.lay, v.trace, v.wsActive, v.wsPath, v.wsData, v.wsFirst)
  }

  predicate Untouched(a: Situation, b: Situation) { b.tree == a.tree && b.disk == a.disk }

  /** Opening is refused for a second stream and for a directory with entries; otherwise what was there is
      deleted and the stream is empty. */
  ghost predicate DidOpen(geo: Geo, a: Situation, b: Situation, path: Path)
    requires RefsOk(geo, a.tree)
  {
    var code := DeleteCode(geo, a.tree, path);
    if a.busy || code == -2 then Untouched(a, b) && b.active == a.active && b.data == a.data
    else
      && b.active && b.path == path && b.data == [] && b.first == 0
      && if code == 0 then Deleted(geo, a.disk, a.tree, b.disk, b.tree, path) else Untouched(a, b)
  }

  /** The bytes are added to the open stream, or the volume runs full and the stream is gone. */
  ghost predicate DidAppend(geo: Geo, a: Situation, b: Situation, data: seq<Byte>) {
    if !a.active then Untouched(a, b)
    else if b.active then
      && b.path == a.path && b.data == a.data + data
      && StreamFrame(a.tree, a.first, a.disk.heap, b.tree, b.first, b.disk.heap)
    else b.tree == Sans(a.tree, a.first) && RanOut(geo, a.disk, a.trace, b.trace)
  }

  /** The stream is dropped, or committed unless no directory can take its entry. */
  ghost predicate DidClose(geo: Geo, a: Situation, b: Situation, commit: bool)
    requires RefsOk(geo, a.tree)
  {
    if !a.active then Untouched(a, b)
    else if !commit || CommitRefused(geo, a.tree, a.lay, a.path) then !b.active && b.tree == Sans(a.tree, a.first)
    else !b.active && Committed(geo, a.disk.heap, a.tree, b.disk.heap, b.tree, a.path, b.first, a.data)
  }

  /** A file is written whole, over what was there. */
  ghost predicate DidWrite(geo: Geo, a: Situation, b: Situation, path: Path, data: seq<Byte>)
    requires RefsOk(geo, a.tree)
  {
    if a.busy || DeleteCode(geo, a.tree, path) == -2 then Untouched(a, b)
    else if CommitRefused(geo, a.tree, a.lay, path) then Reverted(geo, a.disk, a.tree, b.disk, b.tree, path)
    else exists x, t :: Overwrote(geo, a.disk, a.tree, x, t, b.disk.heap, b.tree, path, b.first, data)
  }

  ghost predicate DidMkdir(geo: Geo, a: Situation, b: Situation, path: Path)
    requires RefsOk(geo, a.tree)
  {
    if path == [] then b.tree == a.tree
    else if MkdirRefused(geo, a.tree, a.lay, path) then Untouched(a, b)
    else exists c :: DirMade(geo, a.disk.heap, a.tree, b.disk.heap, b.tree, path, c)
  }

  ghost predicate DidMove(geo: Geo, a: Situation, b: Situation, path: Path, name: Name)
    requires RefsOk(geo, a.tree)
  {
    if RenameRefused(geo, a.tree, a.lay, path, name) then Untouched(a, b)
    else
      && Decodable(name) && Resolve(geo, a.tree, path).Some?
      && var (d, i) := Resolve(geo, a.tree, path).value;
         RenameDone(geo, a.disk.heap, a.tree, b.disk.heap, b.tree, Parent(path), i,
           EntAt(a.tree, d, i).(name := ReadBack(name)))
  }

  /** A file or an empty directory is deleted; of a full directory the first pass at least succeeds. */
  ghost predicate DidRemove(geo: Geo, a: Situation, b: Situation, path: Path)
    requires RefsOk(geo, a.tree)
  {
    var code := DeleteCode(geo, a.tree, path);
    if code == -1 then Untouched(a, b)
    else if code == 0 then Deleted(geo, a.disk, a.tree, b.disk, b.tree, path)
    else FirstGone(geo, a.tree, b.tree, path) && Kin(geo, a.disk, a.tree, b.disk, b.tree)
  }

  /** What each operation does, unless the volume runs full. */
  ghost predicate Does(geo: Geo, a: Situation, b: Situation, op: Op)
    requires RefsOk(geo, a.tree)
  {
    match op
    case Open(path) => DidOpen(geo, a, b, path)
    case Append(data) => DidAppend(geo, a, b, data)
    case Close(commit) => DidClose(geo, a, b, commit)
    case Write(path, data) => DidWrite(geo, a, b, path, data)
    case MakeDir(path) => DidMkdir(geo, a, b, path)
    case Move(path, name) => DidMove(geo, a, b, path, name)
    case Remove(path) => DidRemove(geo, a, b, path)
    case Read(_, _, _) => Untouched(a, b)
  }

  // ---- Operations ------------------------------------------------------------------------------

  /** One operation. It leaves the volume in order, whatever comes of it, unless the volume runs full; and
      then no owner loses its name exactly when the operation is harmless. */
  method Perform(v: Volume, op: Op) returns (ok: bool)
    requires v.Ready() && Proper(op)
    modifies v
    ensures ok ==> v.Ready()
    ensures RefsOk(v.geo, old(v.tree))
    ensures ok ==> NamesKept(v.geo, old(v.tree), v.tree, Busy(v.geo, old(v.wsActive)), op)
    ensures ok ==> Does(v.geo, old(Now(v)), Now(v), op)
    ensures !ok ==> RanOut(v.geo, old(v.disk), old(v.trace), v.trace)
  {
    hide Volume.Ready, Inv, RefsOk, NamesKept, RanOut, Busy, DidOpen, DidAppend, DidClose, DidWrite, DidMkdir, DidMove,
      DidRemove, Now, Untouched, Proper;
    ok := true;
    match op {
      case Open(path) => OpenPath(v, path);
      case Append(data) => AppendTo(v, data);
      case Close(commit) => ok := CloseStream(v, commit);
      case Write(path, data) => ok := WritePath(v, path, data);
      case MakeDir(path) => ok := MakePath(v, path);
      case Move(path, name) => ok := MovePath(v, path, name);
      case Remove(path) => RemovePath(v, path);
      case Read(path, offset, len) => ReadPath(v, path, offset, len);
    }
  }

  method AppendTo(v: Volume, data: seq<Byte>)
    requires v.Ready()
    modifies v
    ensures v.Ready() && RefsOk(v.geo, old(v.tree))
    ensures NamesKept(v.geo, old(v.tree), v.tree, Busy(v.geo, old(v.wsActive)), Append(data))
    ensures DidAppend(v.geo, old(Now(v)), Now(v), data)
  {
    hide Inv, RefsOk, StreamOk, CursorOk, RanOut, Sans, HeapKept, NamesKept, StreamFrame, Busy;
    InvRefs(v.geo, v.disk, v.tree, v.lay);
    ghost var x, t, f, busy := v.disk, v.tree, v.wsFirst, Busy(v.geo, v.wsActive);
    var r := v.WriteAppend(data);
    SansOrphans(t, f);
    if r == 0 {
      FrameNames(t, f, x.heap, v.tree, v.wsFirst, v.disk.heap);
    }
    NamesSame(v.geo, t, v.tree, busy, Append(data));
  }

  method MakePath(v: Volume, path: Path) returns (ok: bool)
    requires v.Ready() && Proper(MakeDir(path))
    modifies v
    ensures ok ==> v.Ready()
    ensures RefsOk(v.geo, old(v.tree))
    ensures ok ==> NamesKept(v.geo, old(v.tree), v.tree, Busy(v.geo, old(v.wsActive)), MakeDir(path))
    ensures ok ==> DidMkdir(v.geo, old(Now(v)), Now(v), path)
    ensures !ok ==> RanOut(v.geo, old(v.disk), old(v.trace), v.trace)
  {
    hide Inv, RefsOk, StreamOk, CursorOk, FullDuring, VolumeFull, HasEnd, ResolveDir, Find, DirMade, Spellable,
      NamesKept, Busy, Stored, Resolve;
    InvRefs(v.geo, v.disk, v.tree, v.lay);
    ghost var x, t, busy := v.disk, v.tree, Busy(v.geo, v.wsActive);
    var room := HasRoom(v, Parent(path));
    var taken := IsTaken(v, Parent(path), Base(path));
    var r := v.Mkdir(path);
    ok := r == 0 || path == [] || !room || taken;
    if r == 0 {
      MadeNames(v.geo, x.heap, t, v.disk.heap, v.tree, path);
    }
    if ok {
      NamesSame(v.geo, t, v.tree, busy, MakeDir(path));
    }
  }

  method RemovePath(v: Volume, path: Path)
    requires v.Ready() && Proper(Remove(path))
    modifies v
    ensures v.Ready() && RefsOk(v.geo, old(v.tree))
    ensures NamesKept(v.geo, old(v.tree), v.tree, Busy(v.geo, old(v.wsActive)), Remove(path))
    ensures DidRemove(v.geo, old(Now(v)), Now(v), path)
  {
    hide Inv, RefsOk, StreamOk, CursorOk, DeleteCode, Deleted, NamesKept, Kin, FirstGone, DeleteHarms, Resolve, Busy,
      Shallow, TreeGone, OutsideSame, Fits, Lost;
    ghost var t, busy := v.tree, Busy(v.geo, v.wsActive);
    var _ := v.Delete(path);
    CodeRange(v.geo, t, path);
    RemoveNames(v.geo, t, v.tree, busy, path);
  }

  method ReadPath(v: Volume, path: Path, offset: nat, len: nat)
    requires v.Ready() && Proper(Read(path, offset, len))
    modifies v
    ensures v.Ready() && RefsOk(v.geo, old(v.tree))
    ensures NamesKept(v.geo, old(v.tree), v.tree, Busy(v.geo, old(v.wsActive)), Read(path, offset, len))
    ensures Untouched(old(Now(v)), Now(v))
  {
    hide Inv, RefsOk, StreamOk, CursorOk, NamesKept, Busy;
    ghost var t, busy := v.tree, Busy(v.geo, v.wsActive);
    var _ := v.ReadAt(path, offset, len);
    NamesSame(v.geo, t, v.tree, busy, Read(path, offset, len));
  }

  lemma {:induction false} RemoveNames(geo: Geo, t: Tree, t': Tree, busy: bool, path: Path)
    requires RefsOk(geo, t) && t.orphans <= t'.orphans
    requires t'.orphans == t.orphans <==> !DeleteHarms(geo, t, path, MAX_PASSES)
    ensures NamesKept(geo, t, t', busy, Remove(path))
  {
    hide RefsOk, DeleteHarms;
  }

  method OpenPath(v: Volume, path: Path)
    requires v.Ready() && Proper(Op.Open(path))
    modifies v
    ensures v.Ready() && RefsOk(v.geo, old(v.tree))
    ensures NamesKept(v.geo, old(v.tree), v.tree, Busy(v.geo, old(v.wsActive)), Op.Open(path))
    ensures DidOpen(v.geo, old(Now(v)), Now(v), path)
  {
    hide Inv, RefsOk, StreamOk, CursorOk, DeleteCode, Deleted, NamesKept, Spellable, SlotsKept, Logged;
    ghost var x, t, lay := v.disk, v.tree, v.lay;
    ghost var r := v.WriteOpen(path);
    OpenNames(v.geo, x, t, lay, v.disk, v.tree, Busy(v.geo, old(v.wsActive)), Op.Open(path), path);
  }

  method CloseStream(v: Volume, commit: bool) returns (ok: bool)
    requires v.Ready()
    modifies v
    ensures ok ==> v.Ready()
    ensures RefsOk(v.geo, old(v.tree))
    ensures ok ==> NamesKept(v.geo, old(v.tree), v.tree, Busy(v.geo, old(v.wsActive)), Close(commit))
    ensures !ok ==> RanOut(v.geo, old(v.disk), old(v.trace), v.trace)
    ensures ok ==> DidClose(v.geo, old(Now(v)), Now(v), commit)
  {
    hide Filed, Inv, RefsOk, StreamOk, CursorOk, FullDuring, VolumeFull, HasEnd, ResolveDir, Sans, HeapKept, Committed,
      NamesKept, Busy;
    InvRefs(v.geo, v.disk, v.tree, v.lay);
    ghost var x, t, data := v.disk, v.tree, v.wsData;
    var room := HasRoom(v, Parent(v.wsPath));
    var active, path := v.wsActive, v.wsPath;
    SansOrphans(t, v.wsFirst);
    var r := v.WriteClose(commit);
    ok := r == 0 || !active || path == [] || !room;
    if r == 0 && active && commit {
      CommitNames(v.geo, x.heap, t, v.disk.heap, v.tree, path, v.wsFirst, data);
    }
    if ok {
      NamesSame(v.geo, t, v.tree, Busy(v.geo, active), Close(commit));
    }
  }

  method MovePath(v: Volume, path: Path, name: Name) returns (ok: bool)
    requires v.Ready() && Proper(Move(path, name))
    modifies v
    ensures ok ==> v.Ready()
    ensures RefsOk(v.geo, old(v.tree))
    ensures ok ==> NamesKept(v.geo, old(v.tree), v.tree, Busy(v.geo, old(v.wsActive)), Move(path, name))
    ensures !ok ==> RanOut(v.geo, old(v.disk), old(v.trace), v.trace)
    ensures ok ==> DidMove(v.geo, old(Now(v)), Now(v), path, name)
  {
    hide Stored, Inv, RefsOk, StreamOk, CursorOk, FullDuring, VolumeFull, HasEnd, Resolve, ResolveDir, Find, RenameCode,
      RenameDone, SafeThrough, Spellable, AcceptableName, NamesKept, Busy;
    InvRefs(v.geo, v.disk, v.tree, v.lay);
    ghost var x, t := v.disk, v.tree;
    var room := HasRoom(v, Parent(path));
    var there := IsTaken(v, Parent(path), Base(path));
    var taken := IsTaken(v, Parent(path), name);
    RenameCases(v.geo, v.tree, v.lay, path, name);
    if AcceptableName(name) {
      SpellableUnits(name);
    }
    var r := v.Rename(path, name);
    ok := r == 0 || !AcceptableName(name) || !room || taken || !there;
    if r == 0 {
      RenameNames(v.geo, x.heap, t, v.disk.heap, v.tree, Parent(path));
    }
    if ok {
      NamesSame(v.geo, t, v.tree, Busy(v.geo, old(v.wsActive)), Move(path, name));
    }
  }

  method WritePath(v: Volume, path: Path, data: seq<Byte>) returns (ok: bool)
    requires v.Ready() && Proper(Write(path, data))
    modifies v
    ensures ok ==> v.Ready()
    ensures RefsOk(v.geo, old(v.tree))
    ensures ok ==> NamesKept(v.geo, old(v.tree), v.tree, Busy(v.geo, old(v.wsActive)), Write(path, data))
    ensures !ok ==> RanOut(v.geo, old(v.disk), old(v.trace), v.trace)
    ensures ok ==> DidWrite(v.geo, old(Now(v)), Now(v), path, data)
  {
    hide Holds, Inv, RefsOk, StreamOk, CursorOk, FullDuring, VolumeFull, HasEnd, Resolve, ResolveDir, Find,
      DeleteCode, Sans, HeapKept, Committed, Reverted, Overwrote, Spellable, Entries, Listings, NamesKept, Deleted;
    InvRefs(v.geo, v.disk, v.tree, v.lay);
    ghost var x, t, lay := v.disk, v.tree, v.lay;
    var room := HasRoom(v, Parent(path));
    var busy := v.wsActive || v.geo.ClusBytes() > STREAM_BUFFER;
    var inside := v.ListPath(path, 1);
    if path != [] {
      FullDir(v.geo, v.tree, path);
    }
    var r := v.WriteFile(path, data);
    ok := r == 0 || busy || path == [] || !room || (inside.Some? && |inside.value| > 0);
    if ok {
      WriteNames(v.geo, x, t, lay, v.disk, v.tree, busy, path, data, v.wsFirst, r);
    }
  }

  lemma {:induction false} WriteNames(geo: Geo, x: Disk, t: Tree, lay: Layout, y: Disk, t': Tree, busy: bool,
      path: Path, data: seq<Byte>, first: nat, r: int)
    requires Inv(geo, x, t, lay) && RefsOk(geo, t)
    requires busy || DeleteCode(geo, t, path) == -2 ==> t' == t
    requires !busy && DeleteCode(geo, t, path) != -2 ==>
      if r == 0 then exists x1, t1 :: Overwrote(geo, x, t, x1, t1, y.heap, t', path, first, data)
      else Reverted(geo, x, t, y, t', path)
    ensures NamesKept(geo, t, t', busy, Write(path, data))
  {
    hide Inv, RefsOk, DeleteHarms, Deleted, Resolve, Committed, HeapKept, NamesKept, NoEntries;
    if !busy && DeleteCode(geo, t, path) != -2 {
      var x1, t1 := y, t';
      if r == 0 {
        x1, t1 :| Overwrote(geo, x, t, x1, t1, y.heap, t', path, first, data);
        CommitNames(geo, x1.heap, t1, y.heap, t', path, first, data);
      } else if Resolve(geo, t, path).Some? {
        x1 :| Deleted(geo, x, t, x1, t', path) && HeapKept(t'.at, x1.heap, y.heap);
      }
      OpenNames(geo, x, t, lay, x1, t', busy, Write(path, data), path);
    } else {
      OpenNames(geo, x, t, lay, y, t', busy, Write(path, data), path);
    }
  }

  /** The states between the operations of a run, and what each operation did to names. */
  ghost predicate NamesThrough(geo: Geo, states: seq<Situation>, ops: seq<Op>) {
    && |states| == |ops| + 1
    && forall j :: 0 <= j < |ops| ==>
         && RefsOk(geo, states[j].tree) && NamesKept(geo, states[j].tree, states[j + 1].tree, states[j].busy, ops[j])
         && Does(geo, states[j], states[j + 1], ops[j])
  }

  lemma {:induction false} NowTree(v: Volume)
    ensures Now(v).tree == v.tree && Now(v).busy == Busy(v.geo, v.wsActive)
  {
  }

  lemma {:induction false} ThroughMore(geo: Geo, states: seq<Situation>, ops: seq<Op>, i: nat, b: Situation)
    requires i < |ops| && |states| == i + 1 && NamesThrough(geo, states, ops[..i]) && RefsOk(geo, states[i].tree)
    requires NamesKept(geo, states[i].tree, b.tree, states[i].busy, ops[i]) && Does(geo, states[i], b, ops[i])
    ensures NamesThrough(geo, states + [b], ops[..i + 1])
  {
    hide RefsOk, NamesKept, Does;
    var r, o := states + [b], ops[..i + 1];
    forall j | 0 <= j < |o|
      ensures RefsOk(geo, r[j].tree) && NamesKept(geo, r[j].tree, r[j + 1].tree, r[j].busy, o[j])
        && Does(geo, r[j], r[j + 1], o[j])
    {
      if j < i {
        assert ops[..i][j] == o[j] && r[j] == states[j] && r[j + 1] == states[j + 1];
      }
    }
  }

  lemma {:induction false} ThroughNothing(geo: Geo, a: Situation)
    ensures NamesThrough(geo, [a], [])
  {
  }

  /** Every owner is the root, the open stream, or named exactly once. */
  ghost predicate AllNamed(geo: Geo, t: Tree) {
    t.orphans == {} && forall k <- t.own :: k == geo.root || k in t.loose || NamedOnce(geo, t, k)
  }

  /** After any sequence of operations, failed ones included, every cluster in use is owned once; only an
      operation during which the volume ran full ends a run. When all owners had names at the start, they
      all do at the end if and only if no operation was harmful. */
  method Run(v: Volume, ops: seq<Op>) returns (ok: bool, ghost states: seq<Situation>, ghost x0: Disk,
      ghost tr0: seq<Disk>)
    requires v.Ready() && forall op <- ops :: Proper(op)
    modifies v
    ensures ok ==> v.Ready() && Owned(v.geo, v.disk, v.tree) && NamesThrough(v.geo, states, ops)
    ensures ok ==> states[0] == old(Now(v)) && states[|ops|] == Now(v)
    ensures ok && old(v.tree).orphans == {} ==>
      (AllNamed(v.geo, v.tree) <==> forall j ::
        0 <= j < |ops|
        ==> !Harms(v.geo, states[j].tree, states[j].busy, ops[j]))
    ensures !ok ==> RanOut(v.geo, x0, tr0, v.trace)
  {
    hide Inv, Owned, StreamOk, CursorOk, RanOut, RefsOk, NamesKept, Harms, Does, NamesThrough, AllNamed, Now;
    x0, tr0 := v.disk, v.trace;
    states := [Now(v)];
    NowTree(v);
    ThroughNothing(v.geo, Now(v));
    assert ops[..0] == [];
    var i := 0;
    while i < |ops|
      invariant 0 <= i <= |ops| && v.Ready() && |states| == i + 1
      invariant states[0] == old(Now(v)) && states[i] == Now(v)
      invariant NamesThrough(v.geo, states, ops[..i])
    {
      assert Proper(ops[i]);
      x0, tr0 := v.disk, v.trace;
      NowTree(v);
      ok := Perform(v, ops[i]);
      NowTree(v);
      if !ok {
        return;
      }
      ThroughMore(v.geo, states, ops, i, Now(v));
      states := states + [Now(v)];
      i := i + 1;
    }
    assert ops[..|ops|] == ops;
    NowTree(v);
    InvOwned(v.geo, v.disk, v.tree, v.lay);
    NamesAtEnd(v.geo, states, ops);
    OwnersNamed(v.geo, v.disk, v.tree);
    ok := true;
  }

  /** A run on a formatted volume. */
  method FreshRun(geo: Geo, ops: seq<Op>) returns (v: Volume, ok: bool, ghost states: seq<Situation>)
    requires geo.Valid() && forall op <- ops :: Proper(op)
    ensures ok ==> fresh(v) && v.Ready() && v.geo == geo && Owned(geo, v.disk, v.tree) && NamesThrough(geo, states, ops)
    ensures ok ==> states[0].tree == FreshTree(geo)
    ensures ok ==>
      (AllNamed(geo, v.tree) <==> forall j ::
        0 <= j < |ops|
        ==> !Harms(geo, states[j].tree, states[j].busy, ops[j]))
  {
    hide Inv, Owned, NamesThrough, AllNamed, Harms, Proper;
    FreshVolume(geo);
    v := new Volume(geo, FreshDisk(geo), FreshTree(geo), FreshLayout(geo));
    ghost var x, tr;
    ok, states, x, tr := Run(v, ops);
  }

  lemma {:induction false} OwnersNamed(geo: Geo, x: Disk, t: Tree)
    requires Owned(geo, x, t)
    ensures AllNamed(geo, t) <==> t.orphans == {}
  {
    hide BitsOwned, OneEach, OwnerOk;
  }

  /** Along a run names are lost at the harmful operations and nowhere else. */
  lemma {:induction false} NamesAtEnd(geo: Geo, states: seq<Situation>, ops: seq<Op>)
    requires NamesThrough(geo, states, ops)
    ensures states[0].tree.orphans <= states[|ops|].tree.orphans
    ensures states[|ops|].tree.orphans == states[0].tree.orphans <==>
      forall j :: 0 <= j < |ops| ==> !Harms(geo, states[j].tree, states[j].busy, ops[j])
  {
    hide RefsOk, Harms;
    if ops != [] {
      var n := |ops| - 1;
      var rest, front := ops[..n], states[..n + 1];
      forall j | 0 <= j < n
        ensures RefsOk(geo, front[j].tree) && NamesKept(geo, front[j].tree, front[j + 1].tree, front[j].busy, rest[j])
      {
        assert rest[j] == ops[j] && front[j] == states[j];
      }
      NamesAtEnd(geo, front, rest);
      assert NamesKept(geo, states[n].tree, states[n + 1].tree, states[n].busy, ops[n]);
    }
  }

  // ---- Two reads that fail inside a file -------------------------------------------------------

  /** A chained file of exactly 4 GiB: a read in its last cluster fails, and then so does one at its start,
      although the latter would succeed on its own. */
  method ReadsFail(v: Volume, path: Path, alone: bool) returns (last: Option<seq<Byte>>, first: Option<seq<Byte>>)
    requires v.Ready() && RefsOk(v.geo, v.tree) && PathFits(path) && path != [] && v.rcPath == []
    requires
      var f := FileAt(v.geo, v.tree, path);
      && f.Some? && !f.value.contig && f.value.size == TWO32
      && f.value.first in v.tree.own && |v.tree.own[f.value.first].chain| * v.geo.ClusBytes() == TWO32
    modifies v
    ensures alone ==> first.Some? && |first.value| == 1
    ensures !alone ==> last == None && first == None
  {
    hide Inv, RefsOk, StreamOk, CursorOk, Readable, FileData;
    GeoFacts(v.geo, v.disk, v.tree, v.lay);
    last := None;
    if !alone {
      last := v.ReadAt(path, TWO32 - v.geo.ClusBytes(), 1);
    }
    first := v.ReadAt(path, 0, 1);
  }
}
