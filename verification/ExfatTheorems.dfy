/** Main results about files: what was written is read back, and everything else reads as before. */
module ExfatTheorems {
  import opened Arith
  import opened Bytes
  import opened ExfatNames
  import opened ExfatEntrySet
  import opened ExfatScan
  import opened ExfatSpace
  import opened ExfatHeap
  import opened ExfatTree
  import opened ExfatLayout
  import opened ExfatEdit
  import opened ExfatGrow
  import opened ExfatAppend
  import opened ExfatOps
  import opened ExfatStream
  import opened ExfatRemove
  import opened ExfatContents
  import opened ExfatCursor

  /** Every prefix of a path that resolves is a directory, and the next component resolves in it. */
  lemma {:induction false} PrefixResolves(geo: Geo, t: Tree, path: Path, n: nat)
    requires RefsOk(geo, t) && Resolve(geo, t, path).Some? && 0 < n < |path|
    ensures ResolveDir(geo, t, path[..n]).Some? && Resolve(geo, t, path[..n]).Some?
      && Resolve(geo, t, path[..n + 1]).Some?
    decreases |path|
  {
    hide RefsOk, EntryOk;
    var up := path[..|path| - 1];
    if n < |up| {
      assert up[..n] == path[..n] && up[..n + 1] == path[..n + 1];
      PrefixResolves(geo, t, up, n);
    } else {
      assert path[..n] == up && path[..n + 1] == path;
    }
  }

  /** A path to an entry does not pass through a file or an empty directory. */
  lemma {:induction false} NotThrough(geo: Geo, t: Tree, path: Path, n: nat, d: nat, i: nat)
    requires RefsOk(geo, t) && Resolve(geo, t, path).Some? && 0 < n < |path|
    requires EntryAt(t, d, i) && (EntAt(t, d, i).isDir ==>
      && EntAt(t, d, i).first in t.dirs
      && NoEntries(t.dirs[EntAt(t, d, i).first]))
    ensures Resolve(geo, t, path[..n]) != Some((d, i))
  {
    hide RefsOk, EntryOk;
    PrefixResolves(geo, t, path, n);
    assert path[..n + 1][..n] == path[..n];
  }

  // ---- Letter case ---------------------------------------------------------------------

  /** Paths that differ in the case of ASCII letters alone lead to the same place. */
  lemma {:induction false} CaseResolves(geo: Geo, t: Tree, p: Path, q: Path)
    requires RefsOk(geo, t) && |p| == |q| && forall k :: 0 <= k < |p| ==> CaseAlike(p[k], q[k])
    ensures Resolve(geo, t, p) == Resolve(geo, t, q) && ResolveDir(geo, t, p) == ResolveDir(geo, t, q)
    decreases |p|
  {
    hide RefsOk, EntryOk, NameEq, CaseAlike;
    if p != [] {
      var n := |p| - 1;
      CaseResolves(geo, t, p[..n], q[..n]);
      var up := ResolveDir(geo, t, p[..n]);
      if up.Some? {
        CaseFinds(t.dirs[up.value], p[n], q[n]);
      }
    }
  }

  lemma {:induction false} CaseFinds(dir: Dir, a: Name, b: Name)
    requires CaseAlike(a, b)
    ensures Find(dir, a) == Find(dir, b)
  {
    hide NameEq, CaseAlike;
    NameEqExact(a, b);
    forall j | 0 <= j < |dir|
      ensures Matches(dir[j], a) <==> Matches(dir[j], b)
    {
      if dir[j].Some? {
        NameEqTrans(a, b, dir[j].value.name);
      }
    }
    FindIs(dir, b, Find(dir, a));
  }

  // ---- Creation ------------------------------------------------------------------------

  /** A new entry at the end of a directory leaves every path to a file as it was. */
  lemma {:induction false} CreationKeepsFiles(geo: Geo, t0: Tree, t: Tree, d: nat, p: Path)
    requires RefsOk(geo, t0) && RefsOk(geo, t) && d in t0.dirs && KeptExcept(t0, t, d, |t0.dirs[d]|)
    requires FileAt(geo, t0, p).Some?
    ensures Resolve(geo, t, p) == Resolve(geo, t0, p) && FileAt(geo, t, p) == FileAt(geo, t0, p)
  {
    hide RefsOk, EntryOk, KeptExcept;
    forall n | 0 < n <= |p|
      ensures Resolve(geo, t0, p[..n]) != Some((d, |t0.dirs[d]|))
    {
    }
    ResolveKept(geo, t0, t, d, |t0.dirs[d]|, p);
  }

  /** The new entry is what its path names exactly when no earlier entry has that name. */
  lemma {:induction false} CreationResolves(geo: Geo, t0: Tree, t: Tree, d: nat, path: Path, e: Entry)
    requires RefsOk(geo, t0) && RefsOk(geo, t) && path != [] && ResolveDir(geo, t0, path[..|path| - 1]) == Some(d)
    requires KeptExcept(t0, t, d, |t0.dirs[d]|) && d in t.dirs && t.dirs[d] == t0.dirs[d] + [Some(e)]
    requires NameEq(e.name, path[|path| - 1])
    ensures
      Resolve(geo, t, path) == Some((d, |t0.dirs[d]|)) <==> Find(t0.dirs[d], path[|path| - 1]) == |t0.dirs[d]|
  {
    hide RefsOk, EntryOk, NameEq;
    var up, base := path[..|path| - 1], path[|path| - 1];
    if up != [] {
      forall n | 0 < n <= |up|
        ensures Resolve(geo, t0, up[..n]) != Some((d, |t0.dirs[d]|))
      {
      }
      ResolveKept(geo, t0, t, d, |t0.dirs[d]|, up);
    }
    hide KeptExcept;
    assert ResolveDir(geo, t, up) == Some(d);
    FindAppended(t0.dirs[d], e, base);
  }

  lemma {:induction false} FindAppended(dir: Dir, e: Entry, want: Name)
    requires NameEq(e.name, want)
    ensures Find(dir + [Some(e)], want) == Find(dir, want)
  {
    hide NameEq;
    var i := Find(dir, want);
    assert forall j :: 0 <= j < |dir| ==> (dir + [Some(e)])[j] == dir[j];
    FindIs(dir + [Some(e)], want, i);
  }

  lemma {:induction false} NameEqRefl(a: Name)
    ensures NameEq(a, a)
  {
  }

  /** A committed stream reads back as exactly the data appended to it, however that was split up:
      its path names the new file exactly when no other entry had the name, and the file's bytes are
      the data, for lengths below 4 GiB. */
  lemma {:induction false} StreamReadsBack(geo: Geo, h0: Heap, t0: Tree, h: Heap, t: Tree, path: Path, first: nat,
      data: seq<Byte>)
    requires RefsOk(geo, t0) && RefsOk(geo, t) && Committed(geo, h0, t0, h, t, path, first, data)
    requires WellFormed(path[|path| - 1]) && 1 <= |path[|path| - 1]| <= NAME_BYTES && |data| < TWO32
    ensures
      var d := ResolveDir(geo, t0, path[..|path| - 1]).value;
      var e := Entry(path[|path| - 1], false, first, |data|, false);
      && (Resolve(geo, t, path) == Some((d, |t0.dirs[d]|)) <==> Find(t0.dirs[d], path[|path| - 1]) == |t0.dirs[d]|)
      && (Find(t0.dirs[d], path[|path| - 1]) == |t0.dirs[d]| ==>
            FileAt(geo, t, path) == Some(e) && Readable(h, t, e) && FileData(h, t, e) == data)
  {
    hide RefsOk, EntryOk, NameEq, KeptExcept, ContentsKept, PutAll, Decode, Decodable, WellFormed, InHeap, ChainBytes,
      ChainOf, Find, StoredUnits;
    var base := path[|path| - 1];
    WellFormedSpellable(base);
    NameEqRefl(base);
    var d := ResolveDir(geo, t0, path[..|path| - 1]).value;
    var e := Entry(base, false, first, |data|, false);
    CreationResolves(geo, t0, t, d, path, e);
    hide Resolve, ResolveDir;
  }

  /** Committing a stream leaves every other file's path and bytes alone. */
  lemma {:induction false} StreamKeepsOthers(geo: Geo, x0: Disk, t0: Tree, lay0: Layout, h: Heap, t: Tree, path: Path,
      first: nat, data: seq<Byte>, p: Path)
    requires Inv(geo, x0, t0, lay0) && RefsOk(geo, t) && RefsOk(geo, t0)
    requires Committed(geo, x0.heap, t0, h, t, path, first, data) && FileAt(geo, t0, p).Some?
    ensures FileAt(geo, t, p) == FileAt(geo, t0, p)
    ensures
      var e := FileAt(geo, t0, p).value;
      Readable(x0.heap, t0, e) && Readable(h, t, e) && FileData(h, t, e) == FileData(x0.heap, t0, e)
  {
    hide RefsOk, EntryOk, NameEq, KeptExcept, ContentsKept, PutAll, Decode, Decodable, Inv, Readable, ChainOf, InHeap,
      ChainBytes, Resolve, ResolveDir;
    CreationKeepsFiles(geo, t0, t, ResolveDir(geo, t0, path[..|path| - 1]).value, p);
    KeptReads(geo, x0, t0, lay0, h, t, 0, p);
  }

  /** A file that keeps its clusters and their bytes reads the same. */
  lemma {:induction false} KeptReads(geo: Geo, x0: Disk, t0: Tree, lay0: Layout, h: Heap, t: Tree, gone: nat, p: Path)
    requires Inv(geo, x0, t0, lay0) && RefsOk(geo, t) && ContentsKept(t0, x0.heap, t, h, gone)
    requires RefsOk(geo, t0) && FileAt(geo, t0, p).Some? && (gone != 0 ==> FileAt(geo, t0, p).value.first != gone)
    ensures
      var e := FileAt(geo, t0, p).value;
      Readable(x0.heap, t0, e) && Readable(h, t, e) && FileData(h, t, e) == FileData(x0.heap, t0, e)
  {
    hide RefsOk, EntryOk, ContentsKept, Inv, Readable, ChainOf, InHeap, ChainBytes, Resolve, FileData;
    var at := Resolve(geo, t0, p).value;
    var e := EntAt(t0, at.0, at.1);
    FileChain(geo, x0, t0, lay0, at.0, at.1);
    FileNamed(geo, t0, at.0, at.1);
    if e.first == 0 {
      NoOwnerZero(geo, t);
      NothingReads(x0.heap, t0, e);
      NothingReads(h, t, e);
    } else {
      ContentsSame(t0, x0.heap, t, h, gone, e);
    }
  }

  lemma {:induction false} NothingReads(h: Heap, t: Tree, e: Entry)
    requires e.first !in t.own && e.size == 0
    ensures Readable(h, t, e) && FileData(h, t, e) == []
  {
  }

  // ---- Deletion ------------------------------------------------------------------------

  lemma {:induction false} DirsKeep(t: Tree, t': Tree, d: nat, i: nat)
    requires EntryAt(t, d, i) && t'.dirs == Detached(t, d, i).dirs
    ensures KeptExcept(t, t', d, i)
  {
  }

  lemma {:induction false} DeletedDirs(geo: Geo, x: Disk, t: Tree, y: Disk, t': Tree, path: Path)
    requires RefsOk(geo, t) && Deleted(geo, x, t, y, t', path)
    ensures
      var at := Resolve(geo, t, path);
      at.Some? && t'.dirs == Detached(t, at.value.0, at.value.1).dirs && t'.loose == t.loose
  {
    hide RefsOk, Resolve, GoneFrom, Children, Left;
  }

  /** Deletion leaves the paths to all other files as they were. */
  lemma {:induction false} DeletionKeepsFiles(geo: Geo, t0: Tree, t: Tree, d: nat, i: nat, p: Path)
    requires RefsOk(geo, t0) && RefsOk(geo, t) && EntryAt(t0, d, i) && t.dirs == Detached(t0, d, i).dirs
    requires EntAt(t0, d, i).isDir ==> EntAt(t0, d, i).first in t0.dirs && NoEntries(t0.dirs[EntAt(t0, d, i).first])
    requires FileAt(geo, t0, p).Some? && Resolve(geo, t0, p) != Some((d, i))
    ensures Resolve(geo, t, p) == Resolve(geo, t0, p) && FileAt(geo, t, p) == FileAt(geo, t0, p)
  {
    hide RefsOk, EntryOk, KeptExcept, Detached, NoEntries, Resolve;
    DirsKeep(t0, t, d, i);
    forall n | 0 < n <= |p|
      ensures Resolve(geo, t0, p[..n]) != Some((d, i))
    {
      if n == |p| {
        assert p[..n] == p;
      } else {
        NotThrough(geo, t0, p, n, d, i);
      }
    }
    ResolveKept(geo, t0, t, d, i, p);
  }

  /** A deletion frees exactly the clusters of the entry that it reaches; the others stay marked. */
  lemma {:induction false} DeletedFrees(geo: Geo, x: Disk, t: Tree, y: Disk, t': Tree, d: nat, i: nat)
    requires geo.Valid() && SpaceOk(geo, x, t.own, t.at) && RefsOk(geo, t) && EntryAt(t, d, i)
    requires Unlinked(geo, x, t, y, t', d, i)
    ensures
      var e := EntAt(t, d, i);
      && |y.bits| == |x.bits| && |y.fat| == |x.fat|
      && ReachOf(geo, t, e) + Left(geo, t, e) == ChainOf(t, e)
      && forall c :: 0 <= c < |x.bits| && c < |x.fat| ==>
           && y.bits[c] == (x.bits[c] && c !in ReachOf(geo, t, e))
           && y.fat[c] == if c in ReachOf(geo, t, e) then 0 else x.fat[c]
  {
    hide SpaceOk, RefsOk, GoneFrom, Without, ReachOf, Left, Freed;
    var e := EntAt(t, d, i);
    var rest, chain := Left(geo, t, e), ChainOf(t, e);
    LeftRun(geo, x, t, d, i);
    ReachSplit(geo, t, e);
    FreedAt(y, rest);
    GoneBits(x, t, Freed(y, rest), d, i);
  }

  lemma {:induction false} ReachSplit(geo: Geo, t: Tree, e: Entry)
    requires geo.ClusBytes() > 0
    ensures ReachOf(geo, t, e) + Left(geo, t, e) == ChainOf(t, e)
  {
    if e.first in t.own {
      ReachLeft(geo, t, e);
    }
  }

  lemma {:induction false} GoneBits(x: Disk, t: Tree, z: Disk, d: nat, i: nat)
    requires EntryAt(t, d, i) && GoneFrom(x, t, z, d, i)
    ensures
      var chain := ChainOf(t, EntAt(t, d, i));
      && |z.bits| == |x.bits| && |z.fat| == |x.fat|
      && (forall c :: 0 <= c < |x.bits| ==> z.bits[c] == (x.bits[c] && c !in chain))
      && (forall c :: 0 <= c < |x.fat| ==> z.fat[c] == if c in chain then 0 else x.fat[c])
  {
    var first := EntAt(t, d, i).first;
    var start, slots :| Rewritten(Released(x, t, first), z, t.own[d].chain, start, slots);
    RewrittenFrame(Released(x, t, first), z, t.own[d].chain, start, slots);
    hide Rewritten;
  }

  lemma {:induction false} DeletedName(dir: Dir, want: Name)
    requires Find(dir, want) < |dir| && forall j :: 0 <= j < |dir| && j != Find(dir, want) ==> !Matches(dir[j], want)
    ensures Find(dir[Find(dir, want) := None], want) == |dir|
  {
    hide NameEq;
    var dir' := dir[Find(dir, want) := None];
    assert forall j :: 0 <= j < |dir| ==> !Matches(dir'[j], want);
    FindIs(dir', want, |dir|);
  }

  /** No entry of the path's directory but the one the path names has the name. */
  predicate Sole(geo: Geo, t: Tree, path: Path)
    requires RefsOk(geo, t)
  {
    path != [] ==>
      var d := ResolveDir(geo, t, path[..|path| - 1]);
      d.Some? ==>
        var dir := t.dirs[d.value];
        forall j :: 0 <= j < |dir| && Matches(dir[j], path[|path| - 1]) ==> j == Find(dir, path[|path| - 1])
  }

  // ---- Writing a whole file --------------------------------------------------------------

  /** A file written over whatever deletable entry was there: (t1, h1) is the state in between. */
  ghost predicate Overwrote(geo: Geo, x0: Disk, t0: Tree, x1: Disk, t1: Tree, h: Heap, t: Tree, path: Path, first: nat,
      data: seq<Byte>)
    requires RefsOk(geo, t0)
  {
    && (Resolve(geo, t0, path) == None ==> t1 == t0 && x1 == x0)
    && (Resolve(geo, t0, path).Some? ==> DeleteCode(geo, t0, path) == 0 && Deleted(geo, x0, t0, x1, t1, path))
    && RefsOk(geo, t1) && Committed(geo, x1.heap, t1, h, t, path, first, data)
  }

  lemma {:induction false} OverwroteIntro(geo: Geo, x0: Disk, t0: Tree, x1: Disk, t1: Tree, h: Heap, t: Tree,
      path: Path, first: nat, data: seq<Byte>)
    requires RefsOk(geo, t0) && RefsOk(geo, t1) && Committed(geo, x1.heap, t1, h, t, path, first, data)
    requires DeleteCode(geo, t0, path) == -1 ==> t1 == t0 && x1 == x0
    requires DeleteCode(geo, t0, path) == 0 ==> Deleted(geo, x0, t0, x1, t1, path)
    requires DeleteCode(geo, t0, path) != -2
    ensures Overwrote(geo, x0, t0, x1, t1, h, t, path, first, data)
  {
    hide RefsOk, Committed, Deleted, Resolve;
  }

  /** The directory a path lies in is still there after the deletion of that path's entry. */
  lemma {:induction false} ParentAfterDelete(geo: Geo, t0: Tree, t1: Tree, path: Path)
    requires RefsOk(geo, t0) && RefsOk(geo, t1) && DeleteCode(geo, t0, path) == 0
    requires
      var at := Resolve(geo, t0, path);
      at.Some? && t1.dirs == Detached(t0, at.value.0, at.value.1).dirs
    ensures ResolveDir(geo, t1, path[..|path| - 1]) == ResolveDir(geo, t0, path[..|path| - 1])
  {
    hide RefsOk, EntryOk, KeptExcept, Detached, NoEntries, DeleteCode, Resolve, ResolveDir;
    var (d, i) := Resolve(geo, t0, path).value;
    DeletableFacts(geo, t0, path);
    DirsKeep(t0, t1, d, i);
    ParentResolves(geo, t0, path);
    var up := path[..|path| - 1];
    forall n | 0 < n <= |up|
      ensures Resolve(geo, t0, up[..n]) != Some((d, i))
    {
      assert up[..n] == path[..n];
      NotThrough(geo, t0, path, n, d, i);
    }
    ResolveDirKept(geo, t0, t1, d, i, up);
  }

  lemma {:induction false} ParentResolves(geo: Geo, t: Tree, path: Path)
    requires RefsOk(geo, t) && Resolve(geo, t, path).Some?
    ensures path != [] && ResolveDir(geo, t, path[..|path| - 1]) == Some(Resolve(geo, t, path).value.0)
    ensures
      var (d, i) := Resolve(geo, t, path).value;
      d in t.dirs && i == Find(t.dirs[d], path[|path| - 1]) < |t.dirs[d]|
  {
    hide RefsOk, EntryOk;
  }

  lemma {:induction false} ResolveDirKept(geo: Geo, t: Tree, t': Tree, d: nat, i: nat, path: Path)
    requires RefsOk(geo, t) && RefsOk(geo, t') && KeptExcept(t, t', d, i)
    requires forall n :: 0 < n <= |path| ==> Resolve(geo, t, path[..n]) != Some((d, i))
    requires ResolveDir(geo, t, path).Some?
    ensures ResolveDir(geo, t', path) == ResolveDir(geo, t, path)
  {
    hide RefsOk, EntryOk, KeptExcept;
    if path != [] {
      ResolveKept(geo, t, t', d, i, path);
    }
  }

  lemma {:induction false} DeletableFacts(geo: Geo, t: Tree, path: Path)
    requires RefsOk(geo, t) && DeleteCode(geo, t, path) == 0
    ensures
      var at := Resolve(geo, t, path);
      && at.Some?
      && var e := EntAt(t, at.value.0, at.value.1);
         e.isDir ==> e.first in t.dirs && NoEntries(t.dirs[e.first])
  {
    var at := Resolve(geo, t, path).value;
    if EntAt(t, at.0, at.1).isDir {
      ChildRef(geo, t, at.0, at.1);
    }
    hide RefsOk, NoEntries;
  }

  lemma {:induction false} OverwriteFind(geo: Geo, x0: Disk, t0: Tree, x1: Disk, t1: Tree, h: Heap, t: Tree,
      path: Path, first: nat, data: seq<Byte>)
    requires RefsOk(geo, t0) && Overwrote(geo, x0, t0, x1, t1, h, t, path, first, data) && Sole(geo, t0, path)
    ensures Find(t1.dirs[ResolveDir(geo, t1, path[..|path| - 1]).value], path[|path| - 1])
         == |t1.dirs[ResolveDir(geo, t1, path[..|path| - 1]).value]|
  {
    hide RefsOk, EntryOk, KeptExcept, ContentsKept, NoEntries, DeleteCode, GoneFrom, Matches, InHeap, ChainBytes,
      ChainOf;
    var base := path[|path| - 1];
    if Resolve(geo, t0, path).Some? {
      var (d, i) := Resolve(geo, t0, path).value;
      DeletedDirs(geo, x0, t0, x1, t1, path);
      ParentAfterDelete(geo, t0, t1, path);
      NotOwnChild(geo, t0, d, i);
      NoOwnerZero(geo, t0);
      DetachedParts(t0, d, i);
      hide Detached;
      DeletedName(t0.dirs[d], base);
    }
  }

  /** Writing a file and reading it back gives exactly the data, whatever was there before. */
  lemma {:induction false} OverwriteReadsBack(geo: Geo, x0: Disk, t0: Tree, x1: Disk, t1: Tree, h: Heap, t: Tree,
      path: Path, first: nat, data: seq<Byte>)
    requires RefsOk(geo, t0) && RefsOk(geo, t) && Overwrote(geo, x0, t0, x1, t1, h, t, path, first, data)
      && Sole(geo, t0, path)
    requires WellFormed(path[|path| - 1]) && 1 <= |path[|path| - 1]| <= NAME_BYTES && |data| < TWO32
    ensures FileAt(geo, t, path) == Some(Entry(path[|path| - 1], false, first, |data|, false))
    ensures Readable(h, t, FileAt(geo, t, path).value) && FileData(h, t, FileAt(geo, t, path).value) == data
  {
    OverwriteFind(geo, x0, t0, x1, t1, h, t, path, first, data);
    hide RefsOk, Committed, Deleted, Sole, WellFormed, Readable;
    StreamReadsBack(geo, x1.heap, t1, h, t, path, first, data);
  }

  lemma {:induction false} OneRef(geo: Geo, t: Tree, d: nat, i: nat, d': nat, i': nat)
    requires RefsOk(geo, t) && EntryAt(t, d, i) && EntryAt(t, d', i')
      && EntAt(t, d, i).first == EntAt(t, d', i').first != 0
    ensures d == d' && i == i'
  {
    assert EntryOk(geo, t, d, i) && EntryOk(geo, t, d', i');
  }

  /** Writing a file leaves the path and the bytes of every other file alone. */
  lemma {:induction false} OverwriteKeepsOthers(geo: Geo, x0: Disk, t0: Tree, lay0: Layout, x1: Disk, t1: Tree,
      h: Heap, t: Tree, path: Path, first: nat, data: seq<Byte>, p: Path)
    requires Inv(geo, x0, t0, lay0) && RefsOk(geo, t0) && RefsOk(geo, t)
    requires Overwrote(geo, x0, t0, x1, t1, h, t, path, first, data)
    requires FileAt(geo, t0, p).Some? && Resolve(geo, t0, p) != Resolve(geo, t0, path)
    ensures FileAt(geo, t, p) == FileAt(geo, t0, p)
    ensures
      var e := FileAt(geo, t0, p).value;
      Readable(x0.heap, t0, e) && Readable(h, t, e) && FileData(h, t, e) == FileData(x0.heap, t0, e)
  {
    hide Inv, RefsOk, EntryOk, KeptExcept, ContentsKept, NoEntries, GoneFrom, InHeap, ChainBytes, ChainOf, FileData,
      Readable, PutAll, Decode, Decodable, DeleteCode;
    var gone := 0;
    if Resolve(geo, t0, path).Some? {
      gone := DeleteKept(geo, x0, t0, lay0, x1, t1, path, p);
    } else {
      ContentsRefl(t0, x0.heap);
    }
    NoOwnerZero(geo, t1);
    ContentsTrans(t0, x0.heap, t1, x1.heap, t, h, gone);
    CreationKeepsFiles(geo, t1, t, ResolveDir(geo, t1, path[..|path| - 1]).value, p);
    KeptReads(geo, x0, t0, lay0, h, t, gone, p);
  }

  lemma {:induction false} DeleteKept(geo: Geo, x0: Disk, t0: Tree, lay0: Layout, x1: Disk, t1: Tree, path: Path,
      p: Path) returns (gone: nat)
    requires Inv(geo, x0, t0, lay0) && RefsOk(geo, t0) && RefsOk(geo, t1)
    requires DeleteCode(geo, t0, path) == 0 && Deleted(geo, x0, t0, x1, t1, path)
    requires FileAt(geo, t0, p).Some? && Resolve(geo, t0, p) != Resolve(geo, t0, path)
    ensures FileAt(geo, t1, p) == FileAt(geo, t0, p) && ContentsKept(t0, x0.heap, t1, x1.heap, gone)
    ensures gone != 0 ==> FileAt(geo, t0, p).value.first != gone
  {
    hide Inv, SpaceOk, RefsOk, LayoutOk, EntryOk, ContentsKept, NoEntries, GoneFrom, Detached, DeleteCode;
    var (d, i) := Resolve(geo, t0, path).value;
    gone := EntAt(t0, d, i).first;
    InvParts(geo, x0, t0, lay0);
    DeletableFacts(geo, t0, path);
    DeletedDirs(geo, x0, t0, x1, t1, path);
    DeleteContents(geo, x0, t0, x1, t1, d, i);
    DeletionKeepsFiles(geo, t0, t1, d, i, p);
    if gone != 0 && FileAt(geo, t0, p).value.first == gone {
      var at := Resolve(geo, t0, p).value;
      OneRef(geo, t0, d, i, at.0, at.1);
    }
  }

  // ---- A write that gets no entry ------------------------------------------------------------

  /** All that is left of a refused write: what was there before is gone, and nothing else has changed. */
  ghost predicate Reverted(geo: Geo, x0: Disk, t0: Tree, x: Disk, t: Tree, path: Path)
    requires RefsOk(geo, t0)
  {
    && (Resolve(geo, t0, path) == None ==> t == t0 && HeapKept(t.at, x0.heap, x.heap))
    && (Resolve(geo, t0, path).Some? ==> exists x1 ::
      && Deleted(geo, x0, t0, x1, t, path) && HeapKept(t.at, x1.heap, x.heap))
  }

  lemma {:induction false} RevertedIntro(geo: Geo, x0: Disk, t0: Tree, x1: Disk, t1: Tree, x: Disk, t: Tree, path: Path)
    requires RefsOk(geo, t0) && t == t1 && HeapKept(t.at, x1.heap, x.heap)
    requires if Resolve(geo, t0, path) == None then t1 == t0 && x1 == x0 else Deleted(geo, x0, t0, x1, t1, path)
    ensures Reverted(geo, x0, t0, x, t, path)
  {
    hide RefsOk, Deleted, Resolve, HeapKept;
  }

  lemma {:induction false} SansNothing(t: Tree)
    requires t.loose == {}
    ensures Sans(t, 0) == t
  {
  }

  /** Opening a file for writing does not change whether its directory takes an entry. */
  lemma {:induction false} OpenedParts(geo: Geo, x0: Disk, t0: Tree, lay0: Layout, x1: Disk, t1: Tree, lay1: Layout,
      path: Path)
    requires Inv(geo, x0, t0, lay0) && Inv(geo, x1, t1, lay1) && RefsOk(geo, t0) && RefsOk(geo, t1)
      && DeleteCode(geo, t0, path) != -2
    requires DeleteCode(geo, t0, path) == 0 ==> Deleted(geo, x0, t0, x1, t1, path) && SlotsKept(lay0, lay1)
    requires DeleteCode(geo, t0, path) != 0 ==> t1 == t0 && x1 == x0 && lay1 == lay0
    ensures if Resolve(geo, t0, path) == None then t1 == t0 && x1 == x0 else Deleted(geo, x0, t0, x1, t1, path)
    ensures CommitRefused(geo, t1, lay1, path) == CommitRefused(geo, t0, lay0, path)
  {
    hide Inv, RefsOk, Deleted, Resolve, ResolveDir, SlotsKept, NoEntries, AllSlots, HasEnd;
    if DeleteCode(geo, t0, path) == 0 {
      DeletedDirs(geo, x0, t0, x1, t1, path);
      ParentAfterDelete(geo, t0, t1, path);
      ParentResolves(geo, t0, path);
      ParentEnd(geo, x0, t0, lay0, x1, t1, lay1, path);
    }
  }

  lemma {:induction false} ParentEnd(geo: Geo, x0: Disk, t0: Tree, lay0: Layout, x1: Disk, t1: Tree, lay1: Layout,
      path: Path)
    requires Inv(geo, x0, t0, lay0) && Inv(geo, x1, t1, lay1) && RefsOk(geo, t0)
    requires Deleted(geo, x0, t0, x1, t1, path) && SlotsKept(lay0, lay1)
    ensures Resolve(geo, t0, path).Some?
    ensures var d := Resolve(geo, t0, path).value.0; HasEnd(geo, t1, lay1, d) == HasEnd(geo, t0, lay0, d)
  {
    hide Inv, SpaceOk, RefsOk, LayoutOk, Resolve, AllSlots, Detached, Without, GoneFrom;
    var (d, i) := Resolve(geo, t0, path).value;
    InvParts(geo, x0, t0, lay0);
    InvParts(geo, x1, t1, lay1);
    WithoutParts(geo, x0, t0, d, i);
    NotOwnChild(geo, t0, d, i);
    NoOwnerZero(geo, t0);
    DetachedParts(t0, d, i);
    LayoutDirs(x0.heap, t0, lay0);
    LayoutDirs(x1.heap, t1, lay1);
  }
}
