/** One pass of a tree deletion: down the first entries to a leaf, which is deleted; and what many passes
    add up to. */
module ExfatPasses {
  import opened Arith
  import opened Bytes
  import opened ExfatNames
  import opened ExfatEntrySet
  import opened ExfatScan
  import opened ExfatSpace
  import opened ExfatHeap
  import opened ExfatTree
  import opened ExfatLayout
  import opened ExfatEdit
  import opened ExfatGrow
  import opened ExfatAppend
  import opened ExfatOps
  import opened ExfatStream
  import opened ExfatRemove
  import opened ExfatContents
  import opened ExfatTheorems
  import opened ExfatTarget
  import opened ExfatSubtree

  /** The driver lists at most this many entries at a time. */
  const LISTED_COUNT: nat := 64

  /** The path at which a pass stops: an empty directory, or the first file it meets going down along first
      entries. None: a path grows too long for the buffer, or a directory is not found under the name
      its listing shows. */
  ghost function Descent(geo: Geo, t: Tree, cur: Path): Option<Path>
    requires RefsOk(geo, t)
    decreases if TextSize(cur) < TREE_PATH then TREE_PATH - TextSize(cur) else 0
  {
    var d := ResolveDir(geo, t, cur);
    if d == None then None
    else
      var ents := Entries(t.dirs[d.value]);
      if ents == [] then Some(cur)
      else
        var name := Listed(ents[0].name);
        if TextSize(cur) + |name| + 2 >= TREE_PATH then None
        else
          NextText(cur, name);
          if ents[0].isDir then Descent(geo, t, cur + [name]) else Some(cur + [name])
  }

  lemma {:induction false} NextText(cur: Path, name: Name)
    ensures TextSize(cur + [name]) == TextSize(cur) + 1 + |name|
    ensures Parent(cur + [name]) == cur && Base(cur + [name]) == name
  {
    assert (cur + [name])[..|cur + [name]| - 1] == cur;
  }

  /** A path below directory k, with a last component and a length that a pass can have built. */
  ghost predicate LeafPath(geo: Geo, t: Tree, k: nat, path: Path, cur: Path)
    requires RefsOk(geo, t)
  {
    && |cur| > |path| && |Base(cur)| < LISTED_NAME && TextSize(Parent(cur)) + |Base(cur)| + 2 < TREE_PATH
    && ResolveDir(geo, t, Parent(cur)).Some?
    && Inside(t, k, ResolveDir(geo, t, Parent(cur)).value)
    && !NoEntries(t.dirs[ResolveDir(geo, t, Parent(cur)).value])
  }

  ghost predicate Reached(geo: Geo, t: Tree, k: nat, path: Path, cur: Path)
    requires RefsOk(geo, t)
  {
    (cur == path && ResolveDir(geo, t, path) == Some(k)) || LeafPath(geo, t, k, path, cur)
  }

  lemma {:induction false} ReachedInside(geo: Geo, t: Tree, k: nat, path: Path, cur: Path, c: nat)
    requires RefsOk(geo, t) && Reached(geo, t, k, path, cur) && ResolveDir(geo, t, cur) == Some(c) && path != []
    ensures Inside(t, k, c)
  {
    hide RefsOk, EntryOk, Inside, NoEntries;
    if cur == path {
      TopInside(t, k);
    } else {
      ParentResolves(geo, t, cur);
      var at := Resolve(geo, t, cur).value;
      LeafInside(geo, t, at.0, at.1, k);
    }
  }

  /** A pass stops at the top directory when that is empty, and at a path below it otherwise. */
  lemma {:induction false} DescentEnds(geo: Geo, t: Tree, k: nat, path: Path, cur: Path, end: Path)
    requires RefsOk(geo, t) && path != [] && Reached(geo, t, k, path, cur) && Descent(geo, t, cur) == Some(end)
    ensures if end == path then cur == path && NoEntries(t.dirs[k]) else LeafPath(geo, t, k, path, end)
    decreases if TextSize(cur) < TREE_PATH then TREE_PATH - TextSize(cur) else 0
  {
    hide RefsOk, Inside, ResolveDir, NoEntries;
    var c := ResolveDir(geo, t, cur).value;
    var ents := Entries(t.dirs[c]);
    EntriesNone(t.dirs[c]);
    if ents != [] {
      var name := Listed(ents[0].name);
      NextText(cur, name);
      ReachedInside(geo, t, k, path, cur, c);
      assert LeafPath(geo, t, k, path, cur + [name]);
      if ents[0].isDir {
        DescentEnds(geo, t, k, path, cur + [name], end);
      }
    }
  }

  // ---- When paths stay short enough ----------------------------------------------------------

  /** Every directory below k that holds entries has a path text below 255 bytes, so no path that a pass
      builds loses a part of its directory. */
  ghost predicate Shallow(t: Tree, k: nat, base: nat) {
    forall d, i :: EntryAt(t, d, i) && Inside(t, k, d) ==> base + TextTo(t, k, d) < PART - 1
  }

  /** A listing shows the whole name, and the path fits the buffer. */
  predicate Handled(t: Tree, k: nat, base: nat, d: nat, i: nat)
    requires EntryAt(t, d, i)
  {
    |EntAt(t, d, i).name| < LISTED_NAME && base + TextTo(t, k, d) + |EntAt(t, d, i).name| + 2 < TREE_PATH
  }

  ghost predicate Fits(t: Tree, k: nat, base: nat) {
    forall d, i :: EntryAt(t, d, i) && Inside(t, k, d) ==> Handled(t, k, base, d, i)
  }

  /** Path texts add up. */
  lemma {:induction false} TextSplit(geo: Geo, t: Tree, k: nat, d: nat)
    requires RefsOk(geo, t) && Inside(t, k, d) && d in t.dirs
    ensures TextTo(t, geo.root, d) == TextTo(t, geo.root, k) + TextTo(t, k, d)
    decreases if d in t.depth then t.depth[d] else 0
  {
    if d != k {
      hide EntriesOk;
      assert RefOk(geo, t, d);
      TextSplit(geo, t, k, t.refs[d].0);
    }
  }

  /** Below directory k the length of a path is that of the path to k and what comes after. */
  lemma {:induction false} TextBelow(geo: Geo, t: Tree, k: nat, path: Path, cur: Path, c: nat)
    requires RefsOk(geo, t) && ResolveDir(geo, t, path) == Some(k) && ResolveDir(geo, t, cur) == Some(c)
      && Inside(t, k, c)
    ensures TextSize(cur) == TextSize(path) + TextTo(t, k, c)
  {
    hide RefsOk, Inside, TextTo;
    PathText(geo, t, path, k);
    PathText(geo, t, cur, c);
    TextSplit(geo, t, k, c);
  }

  /** Where paths stay short, what a pass deletes is the leaf below k that its path names. */
  lemma {:induction false} LeafFound(geo: Geo, t: Tree, k: nat, path: Path, end: Path)
    requires RefsOk(geo, t) && ResolveDir(geo, t, path) == Some(k) && LeafPath(geo, t, k, path, end)
    requires Shallow(t, k, TextSize(path))
    ensures Target(geo, t, end) == Resolve(geo, t, end) && OneCode(geo, t, end) == DeleteCode(geo, t, end)
    ensures OneCode(geo, t, end) == 0 ==>
      && Target(geo, t, end).Some?
      && var (d, i) := Target(geo, t, end).value;
         Leaf(t, d, i) && EntryAt(t, d, i) && Inside(t, k, d) && Handled(t, k, TextSize(path), d, i)
  {
    hide RefsOk, Inside, TextTo, Resolve, ResolveDir, Target, DeleteCode, OneCode;
    var p := ResolveDir(geo, t, Parent(end)).value;
    var j :| 0 <= j < |t.dirs[p]| && t.dirs[p][j] != None;
    assert EntryAt(t, p, j);
    TextBelow(geo, t, k, path, Parent(end), p);
    TargetFits(geo, t, end);
    if OneCode(geo, t, end) == 0 {
      DeletableFacts(geo, t, end);
      ParentResolves(geo, t, end);
      NamedLength(geo, t, end);
    }
  }

  lemma {:induction false} NamedLength(geo: Geo, t: Tree, path: Path)
    requires RefsOk(geo, t) && Resolve(geo, t, path).Some?
    ensures var (d, i) := Resolve(geo, t, path).value; |EntAt(t, d, i).name| == |Base(path)|
  {
    hide RefsOk, ResolveDir;
  }

  /** With names and paths that fit, the descent is where its path says. */
  ghost predicate Exactly(geo: Geo, t: Tree, k: nat, path: Path, cur: Path, c: nat)
    requires RefsOk(geo, t)
  {
    && ResolveDir(geo, t, cur) == Some(c) && Inside(t, k, c) && TextSize(cur) == TextSize(path) + TextTo(t, k, c)
    && |cur| >= |path| > 0 && (cur == path ==> c == k) && (cur != path ==> TextSize(Parent(cur)) < PART - 1)
  }

  /** The first listed entry of the reached directory. */
  lemma {:induction false} ExactlyNext(geo: Geo, t: Tree, k: nat, path: Path, cur: Path, c: nat, j: nat)
    requires RefsOk(geo, t) && Exactly(geo, t, k, path, cur, c)
    requires Fits(t, k, TextSize(path)) && Shallow(t, k, TextSize(path))
    requires c in t.dirs && j < |t.dirs[c]| && t.dirs[c][j].Some? && Find(t.dirs[c], t.dirs[c][j].value.name) == j
    ensures
      var e := EntAt(t, c, j);
      && Listed(e.name) == e.name && TextSize(cur) + |e.name| + 2 < TREE_PATH && TextSize(cur) < PART - 1
      && Resolve(geo, t, cur + [e.name]) == Some((c, j))
      && (e.isDir ==> Exactly(geo, t, k, path, cur + [e.name], e.first))
  {
    hide RefsOk, EntryOk, Inside, TextTo;
    var e := EntAt(t, c, j);
    assert EntryAt(t, c, j);
    NextText(cur, e.name);
    assert (cur + [e.name])[..|cur + [e.name]| - 1] == cur;
    if e.isDir {
      ExactlyChild(geo, t, k, c, j);
    }
  }

  lemma {:induction false} ExactlyChild(geo: Geo, t: Tree, k: nat, c: nat, j: nat)
    requires RefsOk(geo, t) && EntryAt(t, c, j) && EntAt(t, c, j).isDir && Inside(t, k, c) && c in t.dirs
    ensures
      var e := EntAt(t, c, j);
      Inside(t, k, e.first) && TextTo(t, k, e.first) == TextTo(t, k, c) + 1 + |e.name|
  {
    hide RefsOk;
    ChildDeeper(geo, t, c, j);
    var f := EntAt(t, c, j).first;
    LeafTop(geo, t, c, j, k);
  }

  lemma {:induction false} LeafTop(geo: Geo, t: Tree, d: nat, i: nat, k: nat)
    requires RefsOk(geo, t) && EntryAt(t, d, i) && EntAt(t, d, i).isDir && Inside(t, k, d)
    ensures EntAt(t, d, i).first != k
  {
    hide RefsOk, Inside;
    ChildDeeper(geo, t, d, i);
    if EntAt(t, d, i).first == k {
      InsideDepth(t, k, d);
    }
  }

  lemma {:induction false} FileDeletes(geo: Geo, t: Tree, path: Path, c: nat, j: nat)
    requires RefsOk(geo, t) && Resolve(geo, t, path) == Some((c, j)) && !EntAt(t, c, j).isDir
    ensures DeleteCode(geo, t, path) == 0
  {
    hide RefsOk, Resolve;
  }

  lemma {:induction false} EmptyDeletes(geo: Geo, t: Tree, path: Path, c: nat)
    requires RefsOk(geo, t) && ResolveDir(geo, t, path) == Some(c) && path != [] && NoEntries(t.dirs[c])
    ensures DeleteCode(geo, t, path) == 0
  {
    hide RefsOk, EntryOk;
  }

  /** With names and paths that fit, every pass finds a leaf and deletes it. */
  lemma {:induction false} FitsDescends(geo: Geo, t: Tree, k: nat, path: Path, cur: Path, c: nat)
    requires RefsOk(geo, t) && Exactly(geo, t, k, path, cur, c)
    requires Fits(t, k, TextSize(path)) && Shallow(t, k, TextSize(path))
    ensures
      var end := Descent(geo, t, cur);
      end.Some? && (end.value == path || OneCode(geo, t, end.value) == 0)
    decreases if TextSize(cur) < TREE_PATH then TREE_PATH - TextSize(cur) else 0
  {
    hide RefsOk, Inside, TextTo, Fits, Shallow, Resolve, ResolveDir, DeleteCode, OneCode, NoEntries;
    var ents := Entries(t.dirs[c]);
    EntriesNone(t.dirs[c]);
    if ents == [] {
      if cur != path {
        TargetFits(geo, t, cur);
        EmptyDeletes(geo, t, cur, c);
      }
    } else {
      var j := FirstEntry(t.dirs[c]);
      var next := cur + [ents[0].name];
      ExactlyNext(geo, t, k, path, cur, c, j);
      NextText(cur, ents[0].name);
      if ents[0].isDir {
        FitsDescends(geo, t, k, path, next, ents[0].first);
      } else {
        TargetFits(geo, t, next);
        FileDeletes(geo, t, next, c, j);
      }
    }
  }

  /** The entry a listing shows first. */
  lemma {:induction false} FirstEntry(dir: Dir) returns (j: nat)
    requires Entries(dir) != []
    ensures j < |dir| && dir[j].Some? && Entries(dir)[0] == dir[j].value
    ensures Find(dir, dir[j].value.name) == j
  {
    if dir[0].Some? {
      j := 0;
      NameEqRefl(dir[0].value.name);
    } else {
      j := FirstEntry(dir[1..]);
      j := j + 1;
    }
  }

  // ---- What holds after any number of deletions -----------------------------------------------

  /** Entries and directories only vanish. */
  ghost predicate Fewer(t0: Tree, t: Tree) {
    && (forall d <- t.dirs :: d in t0.dirs && d in t0.own && d in t.own && t.own[d] == t0.own[d])
    && (forall d, j :: EntryAt(t, d, j) ==> EntryAt(t0, d, j) && EntAt(t, d, j) == EntAt(t0, d, j))
  }

  lemma {:induction false} FewerRefl(geo: Geo, t: Tree)
    requires RefsOk(geo, t)
    ensures Fewer(t, t)
  {
    hide EntriesOk, RefOk;
  }

  lemma {:induction false} FewerStep(geo: Geo, t0: Tree, x: Disk, t: Tree, d: nat, i: nat)
    requires Fewer(t0, t) && geo.Valid() && SpaceOk(geo, x, t.own, t.at) && RefsOk(geo, t) && EntryAt(t, d, i)
    ensures Fewer(t0, Without(geo, t, d, i)) && !EntryAt(Without(geo, t, d, i), d, i)
    ensures forall d', j :: EntryAt(Without(geo, t, d, i), d', j) ==> EntryAt(t, d', j)
  {
    hide SpaceOk, RefsOk, Without, Detached, EntAt;
    var t' := Without(geo, t, d, i);
    forall d': nat, j: nat | EntryAt(t', d', j)
      ensures EntryAt(t, d', j) && EntAt(t', d', j) == EntAt(t, d', j) && (d', j) != (d, i)
    {
      WithoutEntry(geo, x, t, d, i, d', j);
    }
    hide EntryAt;
    forall k | k in t'.dirs
      ensures k in t0.dirs && k in t0.own && k in t'.own && t'.own[k] == t0.own[k]
    {
      FewerDir(geo, t0, x, t, d, i, k);
    }
  }

  lemma {:induction false} WithoutEntry(geo: Geo, x: Disk, t: Tree, d: nat, i: nat, d': nat, j: nat)
    requires geo.Valid() && SpaceOk(geo, x, t.own, t.at) && RefsOk(geo, t) && EntryAt(t, d, i)
    requires EntryAt(Without(geo, t, d, i), d', j)
    ensures EntryAt(t, d', j) && EntAt(Without(geo, t, d, i), d', j) == EntAt(t, d', j) && (d', j) != (d, i)
  {
    hide SpaceOk, RefsOk, Without, Detached;
    WithoutParts(geo, x, t, d, i);
    assert EntryAt(Detached(t, d, i), d', j);
    DetachedEntry(t, d, i, d', j);
  }

  lemma {:induction false} FewerDir(geo: Geo, t0: Tree, x: Disk, t: Tree, d: nat, i: nat, k: nat)
    requires Fewer(t0, t) && geo.Valid() && SpaceOk(geo, x, t.own, t.at) && RefsOk(geo, t) && EntryAt(t, d, i)
    requires k in Without(geo, t, d, i).dirs
    ensures k in t0.dirs && k in t0.own && k in Without(geo, t, d, i).own && Without(geo, t, d, i).own[k] == t0.own[k]
  {
    hide SpaceOk, RefsOk, Without;
    WithoutParts(geo, x, t, d, i);
    assert k in t.dirs && k in t.own;
    assert k != EntAt(t, d, i).first;
  }

  /** File bytes stay: a deletion writes to directories only. */
  lemma {:induction false} FilesStep(geo: Geo, x0: Disk, t0: Tree, x: Disk, t: Tree, y: Disk, t': Tree, d: nat, i: nat)
    requires geo.Valid() && SpaceOk(geo, x0, t0.own, t0.at) && Fewer(t0, t) && FilesKept(t0, x0.heap, x.heap)
    requires EntryAt(t, d, i) && Unlinked(geo, x, t, y, t', d, i)
    ensures FilesKept(t0, x0.heap, y.heap)
  {
    hide SpaceOk, Unlinked;
    UnlinkedBytes(geo, x, t, y, t', d, i);
    DirListed(t, d, i);
    forall k, j | k in t0.own && k !in t0.dirs && 0 <= j < |t0.own[k].chain| && t0.own[k].chain[j] < |x0.heap|
      ensures y.heap[t0.own[k].chain[j]] == x0.heap[t0.own[k].chain[j]]
    {
      OtherOwners(geo, x0, t0.own, t0.at, d, k);
    }
  }

  /** Owner o is named in a directory whose path text is 255 bytes or longer. */
  predicate Deep(geo: Geo, t: Tree, o: nat) {
    o in t.refs && TextTo(t, geo.root, t.refs[o].0) >= PART - 1
  }

  /** Such an owner still has its clusters. */
  ghost predicate DeepKept(geo: Geo, t0: Tree, t: Tree) {
    forall o <- t0.own :: Deep(geo, t0, o) ==>
      && o in t.own && t.own[o] == t0.own[o]
      && (o in t.refs ==> t.refs[o] == t0.refs[o])
  }

  /** What can be reached from the root could be reached before, by paths of the same length. */
  ghost predicate Rooted(geo: Geo, t0: Tree, t: Tree) {
    forall x :: Inside(t, geo.root, x) ==> Inside(t0, geo.root, x) && TextTo(t, geo.root, x) == TextTo(t0, geo.root, x)
  }

  lemma {:induction false} WithoutRefs(geo: Geo, t: Tree, d: nat, i: nat)
    requires EntryAt(t, d, i) && geo.ClusBytes() > 0
    ensures
      var t' := Without(geo, t, d, i);
      && (forall x <- t'.refs :: x in t.refs && t'.refs[x] == t.refs[x])
      && (forall x <- t'.depth :: x in t.depth && t'.depth[x] == t.depth[x])
      && t'.dirs == Detached(t, d, i).dirs
  {
    hide Left, Children;
  }

  lemma {:induction false} RootedStep(geo: Geo, t: Tree, d: nat, i: nat, x: nat)
    requires EntryAt(t, d, i) && geo.ClusBytes() > 0 && RefsOk(geo, Without(geo, t, d, i))
      && Inside(Without(geo, t, d, i), geo.root, x)
    ensures Inside(t, geo.root, x) && TextTo(Without(geo, t, d, i), geo.root, x) == TextTo(t, geo.root, x)
    decreases if x in Without(geo, t, d, i).depth then Without(geo, t, d, i).depth[x] else 0
  {
    WithoutRefs(geo, t, d, i);
    hide Without, Detached;
    var t' := Without(geo, t, d, i);
    if x != geo.root {
      var (p, j) := t'.refs[x];
      NamedAt(geo, t', x);
      assert EntryAt(Detached(t, d, i), p, j);
      DetachedEntry(t, d, i, p, j);
      hide RefsOk;
      RootedStep(geo, t, d, i, p);
    }
  }

  /** A path leads to what is reached from the root. */
  lemma {:induction false} PathInside(geo: Geo, t: Tree, path: Path, d: nat)
    requires RefsOk(geo, t) && ResolveDir(geo, t, path) == Some(d)
    ensures Inside(t, geo.root, d)
    decreases |path|
  {
    hide RefsOk, EntryOk;
    if path != [] {
      var (p, i) := Resolve(geo, t, path).value;
      PathInside(geo, t, path[..|path| - 1], p);
      DirAbove(geo, t, p, i);
    }
  }

  /** The directory a deletion looks into has a path text below 255 bytes. */
  lemma {:induction false} TargetShort(geo: Geo, t: Tree, path: Path)
    requires RefsOk(geo, t) && Target(geo, t, path).Some?
    ensures
      var d := Target(geo, t, path).value.0;
      Inside(t, geo.root, d) && TextTo(t, geo.root, d) < PART - 1
  {
    hide RefsOk, ResolveDir, Inside, TextTo;
    var d := Target(geo, t, path).value.0;
    PathInside(geo, t, DirPart(path), d);
    PathText(geo, t, DirPart(path), d);
  }

  lemma {:induction false} DeepStep(geo: Geo, t0: Tree, x: Disk, t: Tree, d: nat, i: nat)
    requires geo.Valid() && SpaceOk(geo, x, t.own, t.at) && RefsOk(geo, t) && EntryAt(t, d, i)
    requires DeepKept(geo, t0, t) && Rooted(geo, t0, t) && Inside(t, geo.root, d) && TextTo(t, geo.root, d) < PART - 1
    ensures DeepKept(geo, t0, Without(geo, t, d, i))
  {
    hide SpaceOk, RefsOk, Without, Inside, TextTo, Detached;
    WithoutRefs(geo, t, d, i);
    WithoutParts(geo, x, t, d, i);
    var f := EntAt(t, d, i).first;
    if f in t.own {
      LeafRef(geo, t, d, i);
    }
  }

  lemma {:induction false} RootedAll(geo: Geo, t0: Tree, t: Tree, d: nat, i: nat)
    requires EntryAt(t, d, i) && geo.ClusBytes() > 0 && RefsOk(geo, Without(geo, t, d, i)) && Rooted(geo, t0, t)
    ensures Rooted(geo, t0, Without(geo, t, d, i))
  {
    hide RefsOk, Without, Inside, TextTo;
    forall x: nat | Inside(Without(geo, t, d, i), geo.root, x)
      ensures Inside(t, geo.root, x) && TextTo(Without(geo, t, d, i), geo.root, x) == TextTo(t, geo.root, x)
    {
      RootedStep(geo, t, d, i, x);
    }
  }

  /** What any pass keeps. */
  ghost predicate Kin(geo: Geo, x0: Disk, t0: Tree, x: Disk, t: Tree) {
    Fewer(t0, t) && FilesKept(t0, x0.heap, x.heap) && DeepKept(geo, t0, t) && Rooted(geo, t0, t)
  }

  lemma {:induction false} KinRefl(geo: Geo, x: Disk, t: Tree)
    requires RefsOk(geo, t)
    ensures Kin(geo, x, t, x, t)
  {
    hide Inside, TextTo;
    FewerRefl(geo, t);
  }

  lemma {:induction false} KinStep(geo: Geo, x0: Disk, t0: Tree, lay0: Layout, x: Disk, t: Tree, lay: Layout, y: Disk,
      t': Tree, d: nat, i: nat, s: Stream, data: seq<Byte>)
    requires Inv(geo, x0, t0, lay0) && Inv(geo, x, t, lay) && Kin(geo, x0, t0, x, t)
    requires EntryAt(t, d, i) && geo.ClusBytes() > 0 && Unlinked(geo, x, t, y, t', d, i)
      && StreamOk(geo, x.heap, t, s, data)
    requires RefsOk(geo, t') && Inside(t, geo.root, d) && TextTo(t, geo.root, d) < PART - 1
    ensures Kin(geo, x0, t0, y, t') && !EntryAt(t', d, i) && StreamOk(geo, y.heap, t', s, data)
    ensures forall d', j :: EntryAt(t', d', j) ==> EntryAt(t, d', j)
  {
    hide Inv, SpaceOk, RefsOk, LayoutOk, Fewer, FilesKept, StreamOk, Without, GoneFrom, DeepKept, Rooted, Inside,
      TextTo;
    InvParts(geo, x0, t0, lay0);
    InvParts(geo, x, t, lay);
    DeepStep(geo, t0, x, t, d, i);
    RootedAll(geo, t0, t, d, i);
    FewerStep(geo, t0, x, t, d, i);
    FilesStep(geo, x0, t0, x, t, y, t', d, i);
    StreamUnlinked(geo, x, t, y, t', d, i, s, data);
  }

  // ---- What holds where paths stay short ------------------------------------------------------

  /** t1 is t without the orphans that deletions since have left behind. */
  ghost predicate Ghosted(t: Tree, t1: Tree) {
    && t1.dirs == t.dirs && t1.refs == t.refs && t1.depth == t.depth && t1.loose == t.loose
    && forall o <- t1.own :: o in t.own && t.own[o] == t1.own[o]
  }

  /** A cluster left behind by one of the deletions that led from t0 to t. */
  ghost predicate LostSince(geo: Geo, t0: Tree, t: Tree, k: nat, c: nat)
    requires geo.ClusBytes() > 0
  {
    exists d, i :: EntryAt(t0, d, i) && Inside(t0, k, d) && !EntryAt(t, d, i) && c in Left(geo, t0, EntAt(t0, d, i))
  }

  /** Part of the subtree below k is gone. `spare` holds the clusters that its deletion has left behind;
      without them the volume is that of tree t1. */
  ghost predicate Behind(geo: Geo, t0: Tree, x: Disk, t: Tree, t1: Tree, spare: seq<nat>, k: nat) {
    && Ghosted(t, t1) && RefsOk(geo, t1) && SpaceOk(geo, Freed(x, spare), t1.own, t1.at) && Pruned(t0, t1, k)
    && geo.ClusBytes() > 0
    && (forall c <- spare :: c < |x.bits| && x.bits[c])
    && (forall c :: c in spare <==> LostSince(geo, t0, t1, k, c))
  }

  lemma {:induction false} NoneLost(geo: Geo, t: Tree, k: nat, c: nat)
    requires geo.ClusBytes() > 0
    ensures !LostSince(geo, t, t, k, c)
  {
    hide Left, Inside;
  }

  lemma {:induction false} BehindRefl(geo: Geo, x: Disk, t: Tree, lay: Layout, k: nat)
    requires Inv(geo, x, t, lay) && k in t.dirs
    ensures Behind(geo, t, x, t, t, [], k)
  {
    hide Inv, SpaceOk, RefsOk, LayoutOk, Pruned, Freed, LostSince;
    InvParts(geo, x, t, lay);
    NothingFreed(x);
    PrunedRefl(geo, t, k);
    forall c
      ensures !LostSince(geo, t, t, k, c)
    {
      NoneLost(geo, t, k, c);
    }
  }

  lemma {:induction false} GhostedStep(geo: Geo, x: Disk, t: Tree, t1: Tree, d: nat, i: nat)
    requires geo.Valid() && Ghosted(t, t1) && RefsOk(geo, t) && RefsOk(geo, t1) && SpaceOk(geo, x, t.own, t.at)
    requires Leaf(t, d, i) && EntryAt(t, d, i)
    ensures EntryAt(t1, d, i) && Leaf(t1, d, i)
    ensures Ghosted(Without(geo, t, d, i), Detached(t1, d, i))
    ensures Left(geo, t, EntAt(t, d, i)) == Left(geo, t1, EntAt(t1, d, i))
    ensures EntAt(t, d, i).first in t.own <==> EntAt(t, d, i).first in t1.own
  {
    hide SpaceOk, RefsOk, Left;
    var e := EntAt(t, d, i);
    NamedOwned(geo, t, d, i);
    NamedOwned(geo, t1, d, i);
    LeftSame(geo, t, t1, e);
    LeftHead(geo, x, t, d, i);
    LeafMeans(t, d, i);
    SeverLeafOf(geo, t, d, i);
    var rest := Left(geo, t, e);
    hide Leaf;
    WithoutFields(geo, t, d, i);
  }

  lemma {:induction false} SeverLeafOf(geo: Geo, t: Tree, d: nat, i: nat)
    requires RefsOk(geo, t) && Leaf(t, d, i) && EntryAt(t, d, i)
    ensures Severed(t, d, i) == Detached(t, d, i)
  {
    var f := EntAt(t, d, i).first;
    if f in t.dirs {
      DirEntry(geo, t, d, i, f);
    }
    hide RefsOk, Detached, Severed, NoEntries;
    SeverLeaf(t, d, i);
  }

  lemma {:induction false} WithoutFields(geo: Geo, t: Tree, d: nat, i: nat)
    requires EntryAt(t, d, i) && geo.ClusBytes() > 0 && Severed(t, d, i) == Detached(t, d, i)
    ensures
      var t1, t', rest := Detached(t, d, i), Without(geo, t, d, i), Left(geo, t, EntAt(t, d, i));
      && t'.dirs == t1.dirs && t'.refs == t1.refs && t'.depth == t1.depth && t'.loose == t1.loose
      && t'.own == if rest == [] then t1.own else t1.own[rest[0] := Owner(rest, true)]
  {
    hide Detached, Severed, Left;
  }

  lemma {:induction false} NamedOwned(geo: Geo, t: Tree, d: nat, i: nat)
    requires RefsOk(geo, t) && EntryAt(t, d, i)
    ensures EntAt(t, d, i).first in t.own <==> EntAt(t, d, i).first != 0
  {
    RefsEntry(geo, t, d, i);
    NoOwnerZero(geo, t);
    hide RefsOk;
  }

  lemma {:induction false} LeftSame(geo: Geo, t: Tree, t1: Tree, e: Entry)
    requires geo.ClusBytes() > 0 && (e.first in t.own <==> e.first in t1.own)
    requires e.first in t.own ==> t.own[e.first] == t1.own[e.first]
    ensures Left(geo, t, e) == Left(geo, t1, e)
  {
  }

  /** The same writes seen on the volume without what is left behind. */
  lemma {:induction false} GhostedWrites(x: Disk, t: Tree, y: Disk, t1: Tree, d: nat, i: nat, rest: seq<nat>,
      spare: seq<nat>)
    requires Ghosted(t, t1) && EntryAt(t, d, i) && EntryAt(t1, d, i) && d in t1.own
    requires EntAt(t, d, i).first in t.own <==> EntAt(t, d, i).first in t1.own
    requires GoneFrom(x, t, Freed(y, rest), d, i)
    ensures GoneFrom(Freed(x, spare), t1, Freed(y, rest + spare), d, i)
  {
    hide Freed, Rewritten;
    var f := EntAt(t, d, i).first;
    var start, slots :| Rewritten(Released(x, t, f), Freed(y, rest), t.own[d].chain, start, slots);
    RewrittenFreed(Released(x, t, f), Freed(y, rest), t.own[d].chain, start, slots, spare);
    FreedTwice(y, rest, spare);
    if f in t.own {
      FreedTwice(x, t.own[f].chain, spare);
      FreedTwice(x, spare, t.own[f].chain);
      FreedOrder(x, t.own[f].chain, spare);
    }
    assert EntAt(t1, d, i) == EntAt(t, d, i);
    assert Rewritten(Released(Freed(x, spare), t1, f), Freed(y, rest + spare), t1.own[d].chain, start, slots);
  }

  lemma {:induction false} FreedOrder(x: Disk, a: seq<nat>, b: seq<nat>)
    ensures Freed(x, a + b) == Freed(x, b + a)
  {
    assert FreedFat(x.fat, a + b) == FreedFat(x.fat, b + a);
    assert FreedBits(x.bits, a + b) == FreedBits(x.bits, b + a);
  }

  lemma {:induction false} GoneSpace(geo: Geo, z: Disk, t: Tree, z': Disk, d: nat, i: nat)
    requires SpaceOk(geo, z, t.own, t.at) && EntryAt(t, d, i) && EntAt(t, d, i).first != d && 0 !in t.own
    requires GoneFrom(z, t, z', d, i)
    ensures SpaceOk(geo, z', Detached(t, d, i).own, Detached(t, d, i).at)
  {
    hide SpaceOk, Rewritten, Detached;
    var f := EntAt(t, d, i).first;
    var start, slots :| Rewritten(Released(z, t, f), z', t.own[d].chain, start, slots);
    DetachSpace(geo, z, z', t, d, i, t.own[d].chain, start, slots);
  }

  lemma {:induction false} LostMore(geo: Geo, t0: Tree, t1: Tree, k: nat, d: nat, i: nat, c: nat)
    requires geo.ClusBytes() > 0 && RefsOk(geo, t1) && Leaf(t1, d, i) && EntryAt(t1, d, i) && Pruned(t0, t1, k)
      && Inside(t0, k, d)
    requires EntryAt(t0, d, i)
    ensures LostSince(geo, t0, Detached(t1, d, i), k, c) <==>
      || LostSince(geo, t0, t1, k, c)
      || c in Left(geo, t0, EntAt(t0, d, i))
  {
    hide RefsOk, Leaf, Pruned, Inside, Left, Detached, EntAt;
    var t' := Detached(t1, d, i);
    if LostSince(geo, t0, t', k, c) {
      var x, j :| EntryAt(t0, x, j) && Inside(t0, k, x) && !EntryAt(t', x, j) && c in Left(geo, t0, EntAt(t0, x, j));
      LeafEntries(geo, t1, d, i, x, j);
    }
    if LostSince(geo, t0, t1, k, c) {
      var x, j :| EntryAt(t0, x, j) && Inside(t0, k, x) && !EntryAt(t1, x, j) && c in Left(geo, t0, EntAt(t0, x, j));
      LeafEntries(geo, t1, d, i, x, j);
      assert !EntryAt(t', x, j);
    }
    if c in Left(geo, t0, EntAt(t0, d, i)) {
      LeafEntries(geo, t1, d, i, d, i);
      assert !EntryAt(t', d, i);
    }
  }

  lemma {:induction false} InsideSame(t: Tree, t1: Tree, k: nat, d: nat)
    requires Ghosted(t, t1)
    ensures Inside(t1, k, d) == Inside(t, k, d)
    decreases if d in t.depth then t.depth[d] else 0
  {
    if d in t.refs && d in t.depth && t.refs[d].0 in t.depth && t.depth[t.refs[d].0] < t.depth[d] {
      InsideSame(t, t1, k, t.refs[d].0);
    }
  }

  /** No cluster left behind belongs to an owner. */
  lemma {:induction false} SpareApart(geo: Geo, x: Disk, t1: Tree, spare: seq<nat>, o: nat)
    requires SpaceOk(geo, Freed(x, spare), t1.own, t1.at) && o in t1.own
    ensures forall c <- t1.own[o].chain :: c !in spare
  {
    SpaceBits(geo, Freed(x, spare), t1.own, t1.at);
    FreedAt(x, spare);
    SpacePlaced(geo, Freed(x, spare), t1.own, t1.at);
    hide SpaceOk, Freed;
    forall c | c in t1.own[o].chain
      ensures c !in spare
    {
      var j :| 0 <= j < |t1.own[o].chain| && t1.own[o].chain[j] == c;
      assert c in t1.at;
    }
  }

  lemma {:induction false} ReachOwned(geo: Geo, t: Tree, e: Entry, c: nat)
    requires geo.ClusBytes() > 0 && c in ReachOf(geo, t, e)
    ensures e.first in t.own && c in t.own[e.first].chain
  {
  }

  lemma {:induction false} StaysMarked(geo: Geo, x: Disk, t: Tree, y: Disk, t': Tree, d: nat, i: nat)
    requires geo.Valid() && SpaceOk(geo, x, t.own, t.at) && RefsOk(geo, t) && EntryAt(t, d, i)
      && Unlinked(geo, x, t, y, t', d, i)
    ensures |y.bits| == |x.bits|
    ensures forall c :: 0 <= c < |x.bits| && x.bits[c] && c !in ReachOf(geo, t, EntAt(t, d, i)) ==> y.bits[c]
    ensures forall c <- Left(geo, t, EntAt(t, d, i)) :: c < |y.bits| && y.bits[c]
  {
    SpaceBits(geo, x, t.own, t.at);
    hide SpaceOk, RefsOk, Freed, GoneFrom, Without, Left, ReachOf;
    DeletedFrees(geo, x, t, y, t', d, i);
  }

  /** A deletion does not reach what an earlier one left behind. */
  lemma {:induction false} ReachApart(geo: Geo, x: Disk, t: Tree, t1: Tree, spare: seq<nat>, e: Entry)
    requires geo.ClusBytes() > 0 && Ghosted(t, t1) && SpaceOk(geo, Freed(x, spare), t1.own, t1.at)
    requires e.first in t.own <==> e.first in t1.own
    ensures forall c <- ReachOf(geo, t, e) :: c !in spare
  {
    hide SpaceOk, Freed, ReachOf;
    if e.first in t1.own {
      SpareApart(geo, x, t1, spare, e.first);
    }
    forall c | c in ReachOf(geo, t, e)
      ensures c !in spare
    {
      ReachOwned(geo, t, e, c);
    }
  }

  /** The clusters left behind are told from the start. */
  lemma {:induction false} LeftAtStart(geo: Geo, t0: Tree, t1: Tree, k: nat, d: nat, i: nat)
    requires geo.ClusBytes() > 0 && RefsOk(geo, t0) && RefsOk(geo, t1) && Pruned(t0, t1, k) && EntryAt(t1, d, i)
      && Inside(t1, k, d)
    ensures EntryAt(t0, d, i) && Inside(t0, k, d) && Left(geo, t0, EntAt(t0, d, i)) == Left(geo, t1, EntAt(t1, d, i))
  {
    hide RefsOk, Inside, SubEntries, Left;
    DirListed(t1, d, i);
    NamedOwned(geo, t0, d, i);
    NamedOwned(geo, t1, d, i);
    LeftSame(geo, t0, t1, EntAt(t0, d, i));
  }

  /** One more leaf of the subtree gone. */
  lemma {:induction false} BehindStep(geo: Geo, t0: Tree, x: Disk, t: Tree, lay: Layout, y: Disk, t': Tree,
      lay': Layout, t1: Tree, spare: seq<nat>, k: nat, d: nat, i: nat)
    requires RefsOk(geo, t0) && Inv(geo, x, t, lay) && Inv(geo, y, t', lay') && Behind(geo, t0, x, t, t1, spare, k)
    requires Leaf(t, d, i) && EntryAt(t, d, i) && Inside(t, k, d) && Unlinked(geo, x, t, y, t', d, i)
    ensures EntryAt(t1, d, i) && Behind(geo, t0, y, t', Detached(t1, d, i), Left(geo, t, EntAt(t, d, i)) + spare, k)
    ensures |SubEntries(Detached(t1, d, i), k)| == |SubEntries(t1, k)| - 1
  {
    hide Inv, SpaceOk, RefsOk, LayoutOk, Pruned, Freed, LostSince, Leaf, Inside, SubEntries, Left, GoneFrom, Without,
      Detached, Ghosted;
    InvParts(geo, x, t, lay);
    InvParts(geo, y, t', lay');
    GhostedStep(geo, x, t, t1, d, i);
    InsideSame(t, t1, k, d);
    NotOwnChild(geo, t1, d, i);
    NoOwnerZero(geo, t1);
    var rest := Left(geo, t, EntAt(t, d, i));
    GhostDir(geo, t, t1, d, i);
    GhostedWrites(x, t, y, t1, d, i, rest, spare);
    GoneSpace(geo, Freed(x, spare), t1, Freed(y, rest + spare), d, i);
    LeafMeans(t1, d, i);
    DetachKeepsRefs(geo, t1, d, i);
    PrunedStep(geo, t0, t1, k, d, i);
    StaysMarked(geo, x, t, y, t', d, i);
    ReachApart(geo, x, t, t1, spare, EntAt(t, d, i));
    LeftAtStart(geo, t0, t1, k, d, i);
    forall c
      ensures c in rest + spare <==> LostSince(geo, t0, Detached(t1, d, i), k, c)
    {
      LostMore(geo, t0, t1, k, d, i, c);
    }
  }

  lemma {:induction false} GhostDir(geo: Geo, t: Tree, t1: Tree, d: nat, i: nat)
    requires Ghosted(t, t1) && EntryAt(t, d, i) && RefsOk(geo, t1)
    ensures EntryAt(t1, d, i) && EntAt(t1, d, i) == EntAt(t, d, i) && d in t1.own && d in t.own && d in t1.dirs
  {
    hide EntriesOk, RefOk;
  }

  lemma {:induction false} LeftDir(geo: Geo, t: Tree, d: nat, i: nat)
    requires geo.ClusBytes() > 0 && RefsOk(geo, t) && EntryAt(t, d, i) && EntAt(t, d, i).isDir
    ensures Left(geo, t, EntAt(t, d, i)) == []
  {
    hide FreeCount;
    ChildRef(geo, t, d, i);
    var f := EntAt(t, d, i).first;
    DirsChained(geo, t, f);
    EntryContig(geo, t, d, i);
    hide RefsOk;
  }

  /** When the top directory is empty, everything below it has been deleted. */
  lemma {:induction false} AllLost(geo: Geo, t0: Tree, t1: Tree, k: nat)
    requires Pruned(t0, t1, k) && RefsOk(geo, t1) && k in t1.dirs && NoEntries(t1.dirs[k]) && geo.ClusBytes() > 0
    ensures forall d, i :: EntryAt(t0, d, i) && Inside(t0, k, d) ==> !EntryAt(t1, d, i)
    ensures forall c :: LostSince(geo, t0, t1, k, c) <==> Lost(geo, t0, k, c)
  {
    hide RefsOk, Inside, SubEntries, Left, Under;
    forall d, i | EntryAt(t0, d, i) && Inside(t0, k, d)
      ensures !EntryAt(t1, d, i)
    {
      if EntryAt(t1, d, i) {
        NothingBelow(geo, t1, k, d);
        assert false;
      }
    }
    hide Pruned, NoEntries;
  }

  /** What is left behind was in use below directory k. */
  lemma {:induction false} LostUnder(geo: Geo, x0: Disk, t0: Tree, k: nat, c: nat)
    requires geo.Valid() && SpaceOk(geo, x0, t0.own, t0.at) && RefsOk(geo, t0) && Lost(geo, t0, k, c)
    ensures 2 <= c < geo.Total() && c < |x0.bits| && x0.bits[c] && c in t0.at && Under(t0, k, t0.at[c].0)
  {
    var d, i :| EntryAt(t0, d, i) && Inside(t0, k, d) && c in Left(geo, t0, EntAt(t0, d, i));
    hide SpaceOk, RefsOk, Inside;
    var f := EntAt(t0, d, i).first;
    LeftRun(geo, x0, t0, d, i);
    LeafRef(geo, t0, d, i);
    LeftPlaced(geo, x0, t0, d, i, c);
  }

  lemma {:induction false} LeftPlaced(geo: Geo, x: Disk, t: Tree, d: nat, i: nat, c: nat)
    requires geo.ClusBytes() > 0 && SpaceOk(geo, x, t.own, t.at) && EntryAt(t, d, i)
      && c in Left(geo, t, EntAt(t, d, i))
    ensures c in t.at && t.at[c].0 == EntAt(t, d, i).first
  {
    SpacePlaced(geo, x, t.own, t.at);
    hide SpaceOk, FreeCount;
    var e := EntAt(t, d, i);
    var rest, chain, n := Left(geo, t, e), t.own[e.first].chain, FreeCount(geo, e.size);
    var j :| 0 <= j < |rest| && rest[j] == c;
    assert chain[n + j] == c;
  }

  lemma {:induction false} OwnersStay(geo: Geo, t0: Tree, t: Tree, t1: Tree, k: nat)
    requires OwnersGone(t0, t1, k) && Ghosted(t, t1) && RefsOk(geo, t) && RefsOk(geo, t1)
    ensures OwnersLeft(t0, t, k)
  {
    hide Under, EntriesOk;
    forall o | o in t.own && o !in t.orphans
      ensures o in t1.own
    {
      if o in t.refs {
        assert RefOk(geo, t1, o);
      }
    }
    hide RefOk;
  }

  lemma {:induction false} BitsStay(geo: Geo, x0: Disk, t0: Tree, y: Disk, k: nat, spare: seq<nat>)
    requires geo.Valid() && SpaceOk(geo, x0, t0.own, t0.at) && RefsOk(geo, t0)
      && BitsGone(geo, x0, t0, Freed(y, spare), k)
    requires forall c <- spare :: c < |y.bits| && y.bits[c]
    requires forall c :: c in spare <==> Lost(geo, t0, k, c)
    ensures BitsLeft(geo, x0, t0, y, k)
  {
    hide SpaceOk, RefsOk, Freed, Under, Lost;
    FreedAt(y, spare);
    forall c: nat | Lost(geo, t0, k, c)
      ensures 2 <= c < geo.Total() && c < |x0.bits| && x0.bits[c] && c in t0.at && Under(t0, k, t0.at[c].0)
    {
      LostUnder(geo, x0, t0, k, c);
    }
  }

  /** Clusters left behind have owners without a name, and every owner without a name that t1 lacks has such
      clusters. */
  lemma {:induction false} GhostOrphans(geo: Geo, x: Disk, t: Tree, t1: Tree, spare: seq<nat>)
    requires geo.Valid() && Ghosted(t, t1) && RefsOk(geo, t) && RefsOk(geo, t1)
    requires SpaceOk(geo, x, t.own, t.at) && SpaceOk(geo, Freed(x, spare), t1.own, t1.at)
    requires forall c <- spare :: 2 <= c < geo.Total() && c !in geo.system && c < |x.bits| && x.bits[c]
    ensures t1.orphans <= t.orphans && (t.orphans == t1.orphans <==> forall c :: c !in spare)
  {
    hide SpaceOk, Freed;
    GhostKeys(geo, t, t1);
    FreedAt(x, spare);
    hide RefsOk;
    if o :| o in t.orphans && o !in t1.orphans {
      GhostMarked(geo, x, t, t1, spare, o);
    }
    if c :| c in spare {
      GhostOwned(geo, x, t, t1, spare, c);
    }
  }

  lemma {:induction false} GhostKeys(geo: Geo, t: Tree, t1: Tree)
    requires Ghosted(t, t1) && RefsOk(geo, t) && RefsOk(geo, t1)
    ensures t1.orphans <= t.orphans && t.orphans <= t.own.Keys
    ensures forall o <- t.own :: o in t1.own || (o in t.orphans && o !in t1.orphans)
    ensures forall o <- t.orphans :: o in t1.own ==> o in t1.orphans
  {
    hide EntriesOk;
    forall o | o in t.refs
      ensures o in t1.own
    {
      assert RefOk(geo, t1, o);
    }
    forall o | o in t1.own && o in t.refs
      ensures o !in t.orphans && o !in t1.orphans
    {
      assert RefOk(geo, t, o) && RefOk(geo, t1, o);
    }
    hide RefOk;
  }

  /** An owner that t1 lacks starts with a cluster that was left behind. */
  lemma {:induction false} GhostMarked(geo: Geo, x: Disk, t: Tree, t1: Tree, spare: seq<nat>, o: nat)
    requires Ghosted(t, t1) && o in t.own && o !in t1.own
    requires SpaceOk(geo, x, t.own, t.at) && SpaceOk(geo, Freed(x, spare), t1.own, t1.at)
    ensures o in spare
  {
    hide Freed;
    FreedAt(x, spare);
    OwnedMarked(geo, x, t, o);
    GhostPlace(t, t1, o);
    assert o !in t1.at && o !in geo.system;
  }

  lemma {:induction false} GhostPlace(t: Tree, t1: Tree, c: nat)
    requires Ghosted(t, t1) && Placed(t.own, t.at) && Placed(t1.own, t1.at)
    ensures c in t1.at ==> c in t.at && t.at[c].0 in t1.own
    ensures c in t.at && t.at[c].0 in t1.own ==> c in t1.at
  {
    if c in t1.at {
      var (p, j) := t1.at[c];
      assert t.own[p].chain[j] == c;
      assert t.at[c] == (p, j);
    }
    assert c in t.at && t.at[c].0 in t1.own ==> t1.own[t.at[c].0].chain[t.at[c].1] == c;
  }

  /** What was left behind belongs to an owner that t1 lacks. */
  lemma {:induction false} GhostOwned(geo: Geo, x: Disk, t: Tree, t1: Tree, spare: seq<nat>, c: nat)
    requires Ghosted(t, t1) && c in spare && 2 <= c < geo.Total() && c !in geo.system && c < |x.bits| && x.bits[c]
    requires SpaceOk(geo, x, t.own, t.at) && SpaceOk(geo, Freed(x, spare), t1.own, t1.at)
    ensures c in t.at && t.at[c].0 in t.own && t.at[c].0 !in t1.own
  {
    hide Freed, DiskOk, OwnersOk;
    FreedAt(x, spare);
    assert c in t.at && c !in t1.at;
    GhostPlace(t, t1, c);
  }

  lemma {:induction false} OrphansStay(geo: Geo, x0: Disk, t0: Tree, y: Disk, t: Tree, t1: Tree, spare: seq<nat>,
      k: nat)
    requires geo.Valid() && Ghosted(t, t1) && RefsOk(geo, t) && RefsOk(geo, t1) && t1.orphans == t0.orphans
    requires SpaceOk(geo, y, t.own, t.at) && SpaceOk(geo, Freed(y, spare), t1.own, t1.at)
    requires SpaceOk(geo, x0, t0.own, t0.at) && RefsOk(geo, t0)
    requires forall c <- spare :: c < |y.bits| && y.bits[c]
    requires forall c :: c in spare <==> Lost(geo, t0, k, c)
    ensures OrphansLeft(geo, t0, t, k)
  {
    hide SpaceOk, RefsOk, Freed, Lost, Ghosted;
    forall c: nat | c in spare
      ensures 2 <= c < geo.Total() && c !in geo.system
    {
      LostUnder(geo, x0, t0, k, c);
      LostRange(geo, x0, t0, k, c);
    }
    GhostOrphans(geo, y, t, t1, spare);
  }

  lemma {:induction false} PrunedOrphans(t0: Tree, t: Tree, k: nat)
    requires Pruned(t0, t, k)
    ensures t.orphans == t0.orphans
  {
    hide Inside, SubEntries, Under;
  }

  lemma {:induction false} LostRange(geo: Geo, x0: Disk, t0: Tree, k: nat, c: nat)
    requires SpaceOk(geo, x0, t0.own, t0.at) && c in t0.at
    ensures 2 <= c < geo.Total() && c !in geo.system
  {
  }

  /** The last step: the emptied directory itself is deleted. */
  lemma {:induction false} TreeGoneStep(geo: Geo, x0: Disk, t0: Tree, lay0: Layout, x: Disk, t: Tree, lay: Layout,
      y: Disk, t': Tree, lay': Layout, t1: Tree, spare: seq<nat>, d: nat, i: nat, k: nat)
    requires Inv(geo, x0, t0, lay0) && Inv(geo, x, t, lay) && Inv(geo, y, t', lay')
      && Behind(geo, t0, x, t, t1, spare, k)
    requires Leaf(t, d, i) && EntryAt(t, d, i) && EntAt(t, d, i).isDir && EntAt(t, d, i).first == k
      && Unlinked(geo, x, t, y, t', d, i)
    ensures EntryAt(t0, d, i) && EntAt(t0, d, i).first == k && TreeGone(geo, x0, t0, y, t', d, i)
  {
    hide Inv, SpaceOk, RefsOk, LayoutOk, Pruned, Freed, LostSince, Lost, Leaf, Inside, SubEntries, Left, GoneFrom,
      Without, Detached, Ghosted,
         OwnersGone, BitsGone, OwnersLeft, BitsLeft, Under, NoEntries, OrphansLeft;
    InvParts(geo, x0, t0, lay0);
    InvParts(geo, x, t, lay);
    InvParts(geo, y, t', lay');
    GhostedStep(geo, x, t, t1, d, i);
    NotOwnChild(geo, t1, d, i);
    NoOwnerZero(geo, t1);
    GhostDir(geo, t, t1, d, i);
    TopEntry(t0, t1, k, d, i);
    TopOutside(geo, t0, d, i);
    LeftDir(geo, t, d, i);
    assert [] + spare == spare;
    GhostedWrites(x, t, y, t1, d, i, [], spare);
    GoneSpace(geo, Freed(x, spare), t1, Freed(y, spare), d, i);
    LeafMeans(t1, d, i);
    DetachKeepsRefs(geo, t1, d, i);
    GoneOwners(geo, t0, t1, k, d, i);
    OwnersToBits(geo, x0, t0, Freed(y, spare), Detached(t1, d, i), k);
    GoneDirs(geo, t0, t1, k, d, i);
    OwnersStay(geo, t0, t', Detached(t1, d, i), k);
    AllLost(geo, t0, t1, k);
    StaysMarked(geo, x, t, y, t', d, i);
    ReachApart(geo, x, t, t1, spare, EntAt(t, d, i));
    BitsStay(geo, x0, t0, y, k, spare);
    PrunedOrphans(t0, t1, k);
    DetachedOrphans(t1, d, i);
    OrphansStay(geo, x0, t0, y, t', Detached(t1, d, i), spare, k);
    GhostDirs(t', Detached(t1, d, i));
  }

  lemma {:induction false} GhostDirs(t: Tree, t1: Tree)
    requires Ghosted(t, t1)
    ensures t.dirs == t1.dirs
  {
  }

  // ---- A whole tree deletion ---------------------------------------------------------------------

  /** Every entry below k that is gone had a name and a path that fit. */
  ghost predicate AllHandled(t0: Tree, t1: Tree, k: nat, base: nat) {
    forall d, i :: EntryAt(t0, d, i) && Inside(t0, k, d) && !EntryAt(t1, d, i) ==> Handled(t0, k, base, d, i)
  }

  lemma {:induction false} TextToKept(geo: Geo, t0: Tree, t: Tree, k: nat, d: nat)
    requires Pruned(t0, t, k) && RefsOk(geo, t) && RefsOk(geo, t0) && d in t.dirs && Inside(t, k, d)
    ensures TextTo(t, k, d) == TextTo(t0, k, d)
    decreases if d in t.depth then t.depth[d] else 0
  {
    hide EntriesOk, SubEntries, Under;
    if d != k {
      assert RefOk(geo, t, d) && RefOk(geo, t0, d);
      var (p, j) := t.refs[d];
      assert EntryAt(t, p, j) && EntryAt(t0, p, j);
      hide RefsOk, Pruned, RefOk;
      TextToKept(geo, t0, t, k, p);
    }
  }

  lemma {:induction false} TextSame(t: Tree, t1: Tree, k: nat, d: nat)
    requires Ghosted(t, t1)
    ensures TextTo(t1, k, d) == TextTo(t, k, d)
    decreases if d in t.depth then t.depth[d] else 0
  {
    if d != k && d in t.refs && d in t.depth && t.refs[d].0 in t.depth && t.depth[t.refs[d].0] < t.depth[d] {
      TextSame(t, t1, k, t.refs[d].0);
    }
  }

  /** Entries that are left, and their paths, are as at the start. */
  lemma {:induction false} LeftAsBefore(geo: Geo, t0: Tree, t: Tree, t1: Tree, k: nat, d: nat, i: nat)
    requires RefsOk(geo, t0) && RefsOk(geo, t1) && Pruned(t0, t1, k) && Ghosted(t, t1) && EntryAt(t, d, i)
      && Inside(t, k, d)
    ensures EntryAt(t0, d, i) && EntAt(t, d, i) == EntAt(t0, d, i) && Inside(t0, k, d)
      && TextTo(t, k, d) == TextTo(t0, k, d)
  {
    hide RefsOk, Inside, TextTo, SubEntries, Under;
    InsideSame(t, t1, k, d);
    TextSame(t, t1, k, d);
    assert EntryAt(t1, d, i);
    TextToKept(geo, t0, t1, k, d);
  }

  lemma {:induction false} ShortKept(geo: Geo, t0: Tree, t: Tree, t1: Tree, k: nat, base: nat)
    requires RefsOk(geo, t0) && RefsOk(geo, t1) && Pruned(t0, t1, k) && Ghosted(t, t1)
    ensures Shallow(t0, k, base) ==> Shallow(t, k, base)
    ensures Fits(t0, k, base) ==> Fits(t, k, base)
  {
    hide RefsOk, Inside, TextTo, Pruned, Ghosted;
    forall d, i | EntryAt(t, d, i) && Inside(t, k, d)
      ensures EntryAt(t0, d, i) && EntAt(t, d, i) == EntAt(t0, d, i) && Inside(t0, k, d)
        && TextTo(t, k, d) == TextTo(t0, k, d)
    {
      LeftAsBefore(geo, t0, t, t1, k, d, i);
    }
  }

  /** Between two passes: t0 is the start, path still names directory k by entry i of directory d, and n
      entries have been deleted. */
  ghost predicate Clearing(geo: Geo, t0: Tree, x: Disk, t: Tree, t1: Tree, spare: seq<nat>, path: Path, d: nat, i: nat,
      k: nat, n: nat)
    requires RefsOk(geo, t)
  {
    && Behind(geo, t0, x, t, t1, spare, k) && AllHandled(t0, t1, k, TextSize(path))
    && Resolve(geo, t, path) == Some((d, i)) && EntAt(t, d, i).isDir && EntAt(t, d, i).first == k
    && |SubEntries(t1, k)| + n == |SubEntries(t0, k)|
  }

  lemma {:induction false} ClearingStart(geo: Geo, x: Disk, t: Tree, lay: Layout, path: Path)
    requires Inv(geo, x, t, lay) && RefsOk(geo, t) && DeleteCode(geo, t, path) == -2
    ensures
      var at := Resolve(geo, t, path);
      && at.Some? && path != []
      && var (d, i) := at.value;
         var k := EntAt(t, d, i).first;
         && Clearing(geo, t, x, t, t, [], path, d, i, k, 0) && ResolveDir(geo, t, path) == Some(k)
           && !NoEntries(t.dirs[k])
  {
    hide Inv, RefsOk, EntryOk, Behind, Inside, SubEntries, TextTo;
    var (d, i) := Resolve(geo, t, path).value;
    ChildRef(geo, t, d, i);
    BehindRefl(geo, x, t, lay, EntAt(t, d, i).first);
  }

  lemma {:induction false} ClearingAt(geo: Geo, t0: Tree, x: Disk, t: Tree, t1: Tree, spare: seq<nat>, path: Path,
      d: nat, i: nat, k: nat, n: nat)
    requires RefsOk(geo, t) && Clearing(geo, t0, x, t, t1, spare, path, d, i, k, n)
    ensures path != [] && ResolveDir(geo, t, path) == Some(k) && k in t.dirs && Resolve(geo, t, path) == Some((d, i))
    ensures DeleteCode(geo, t, path) == if NoEntries(t.dirs[k]) then 0 else -2
  {
    hide RefsOk, EntryOk, Behind, AllHandled, SubEntries, NoEntries, Resolve;
    ChildRef(geo, t, d, i);
    PathSplit(geo, t, path);
  }

  lemma {:induction false} PathSplit(geo: Geo, t: Tree, path: Path)
    requires RefsOk(geo, t) && Resolve(geo, t, path).Some?
    ensures path != []
    ensures
      var (d, i) := Resolve(geo, t, path).value;
      EntAt(t, d, i).isDir ==> ResolveDir(geo, t, path) == Some(EntAt(t, d, i).first)
  {
    hide RefsOk, EntryOk;
  }

  lemma {:induction false} HandledMore(geo: Geo, t0: Tree, t: Tree, t1: Tree, k: nat, base: nat, d: nat, i: nat)
    requires RefsOk(geo, t0) && RefsOk(geo, t1) && Pruned(t0, t1, k) && Ghosted(t, t1) && AllHandled(t0, t1, k, base)
    requires EntryAt(t, d, i) && Inside(t, k, d) && Handled(t, k, base, d, i) && EntryAt(t1, d, i) && Leaf(t1, d, i)
    ensures AllHandled(t0, Detached(t1, d, i), k, base)
  {
    hide RefsOk, Inside, TextTo, Pruned, Ghosted, Detached, Leaf, EntAt;
    LeftAsBefore(geo, t0, t, t1, k, d, i);
    var t' := Detached(t1, d, i);
    forall x: nat, j: nat | EntryAt(t0, x, j) && Inside(t0, k, x) && !EntryAt(t', x, j)
      ensures Handled(t0, k, base, x, j)
    {
      LeafEntries(geo, t1, d, i, x, j);
    }
  }

  /** One pass more. */
  lemma {:induction false} ClearingStep(geo: Geo, x0: Disk, t0: Tree, lay0: Layout, x: Disk, t: Tree, lay: Layout,
      y: Disk, t': Tree, lay': Layout, t1: Tree, spare: seq<nat>, path: Path, d: nat, i: nat, k: nat, n: nat, d': nat,
      i': nat)
    requires Inv(geo, x0, t0, lay0) && Inv(geo, x, t, lay) && Inv(geo, y, t', lay') && RefsOk(geo, t) && RefsOk(geo, t')
    requires Clearing(geo, t0, x, t, t1, spare, path, d, i, k, n)
    requires EntryAt(t, d', i') && Leaf(t, d', i') && Inside(t, k, d') && Handled(t, k, TextSize(path), d', i')
    requires Unlinked(geo, x, t, y, t', d', i')
    ensures EntryAt(t1, d', i')
    ensures
      Clearing(geo, t0, y, t', Detached(t1, d', i'), Left(geo, t, EntAt(t, d', i')) + spare, path, d, i, k, n + 1)
  {
    hide Inv, SpaceOk, RefsOk, LayoutOk, AllHandled, Pruned, Freed, LostSince, Leaf, Inside, SubEntries, Left,
      GoneFrom, Without, Detached, Ghosted, Handled, TextTo, Resolve;
    InvParts(geo, x0, t0, lay0);
    InvParts(geo, x, t, lay);
    BehindStep(geo, t0, x, t, lay, y, t', lay', t1, spare, k, d', i');
    GhostedStep(geo, x, t, t1, d', i');
    HandledMore(geo, t0, t, t1, k, TextSize(path), d', i');
    WithoutDirs(geo, x, t, d', i');
    TopPathKept(geo, t, t', path, d, i, d', i');
    TopStays(geo, x, t, t', d, i, k, d', i');
  }

  lemma {:induction false} WithoutDirs(geo: Geo, x: Disk, t: Tree, d: nat, i: nat)
    requires geo.Valid() && SpaceOk(geo, x, t.own, t.at) && RefsOk(geo, t) && EntryAt(t, d, i)
    ensures Without(geo, t, d, i).dirs == Detached(t, d, i).dirs
  {
    hide SpaceOk, RefsOk, Detached, Without;
    WithoutParts(geo, x, t, d, i);
  }

  lemma {:induction false} TopStays(geo: Geo, x: Disk, t: Tree, t': Tree, d: nat, i: nat, k: nat, d': nat, i': nat)
    requires geo.Valid() && SpaceOk(geo, x, t.own, t.at) && RefsOk(geo, t) && EntryAt(t, d', i')
      && t' == Without(geo, t, d', i')
    requires EntryAt(t, d, i) && EntryAt(t', d, i)
    ensures EntAt(t', d, i) == EntAt(t, d, i)
  {
    WithoutEntry(geo, x, t, d', i', d, i);
  }

  /** With the directory empty, all entries below it were handled, one pass each. */
  lemma {:induction false} ClearedAll(geo: Geo, t0: Tree, x: Disk, t: Tree, t1: Tree, spare: seq<nat>, path: Path,
      d: nat, i: nat, k: nat, n: nat)
    requires RefsOk(geo, t) && Clearing(geo, t0, x, t, t1, spare, path, d, i, k, n) && k in t.dirs
      && NoEntries(t.dirs[k])
    ensures Fits(t0, k, TextSize(path)) && |SubEntries(t0, k)| == n
  {
    hide RefsOk, SpaceOk, Pruned, Freed, LostSince, Inside, TextTo, NoEntries, SubEntries, Resolve, Handled;
    GhostDirs(t, t1);
    AllLost(geo, t0, t1, k);
    NoSubEntries(geo, t1, k);
  }

  lemma {:induction false} NoSubEntries(geo: Geo, t: Tree, k: nat)
    requires RefsOk(geo, t) && k in t.dirs && NoEntries(t.dirs[k])
    ensures |SubEntries(t, k)| == 0
  {
    hide RefsOk, Inside;
    forall p | p in SubEntries(t, k)
      ensures false
    {
      NothingBelow(geo, t, k, p.0);
      assert false;
    }
    assert SubEntries(t, k) == {};
  }

  lemma {:induction false} SomeLeft(geo: Geo, t: Tree, t1: Tree, k: nat)
    requires RefsOk(geo, t) && Ghosted(t, t1) && k in t.dirs && !NoEntries(t.dirs[k])
    ensures |SubEntries(t1, k)| > 0
  {
    hide RefsOk, Inside;
    var i :| 0 <= i < |t.dirs[k]| && t.dirs[k][i] != None;
    assert EntryAt(t1, k, i);
    TopInside(t1, k);
    assert (k, i) in SubEntries(t1, k);
  }

  /** Everything outside the directory is as it was. */
  ghost predicate OutsideSame(t0: Tree, t: Tree, k: nat) {
    && (forall o <- t0.own :: !Under(t0, k, o) ==> o in t.own && t.own[o] == t0.own[o])
    && (forall d <- t0.dirs :: !Inside(t0, k, d) ==> d in t.dirs && t.dirs[d] == t0.dirs[d])
  }

  lemma {:induction false} ClearingOutside(geo: Geo, t0: Tree, x: Disk, t: Tree, t1: Tree, spare: seq<nat>, path: Path,
      d: nat, i: nat, k: nat, n: nat)
    requires RefsOk(geo, t) && Clearing(geo, t0, x, t, t1, spare, path, d, i, k, n)
    ensures OutsideSame(t0, t, k)
  {
    hide RefsOk, SpaceOk, Freed, LostSince, Inside, Under, SubEntries, Resolve, AllHandled;
  }

  /** As long as no deletion leaves clusters behind, no owner loses its name. */
  lemma {:induction false} ClearingNames(geo: Geo, x0: Disk, t0: Tree, lay0: Layout, x: Disk, t: Tree, lay: Layout,
      t1: Tree, spare: seq<nat>, path: Path, d: nat, i: nat, k: nat, n: nat)
    requires Inv(geo, x0, t0, lay0) && Inv(geo, x, t, lay) && RefsOk(geo, t)
    requires Clearing(geo, t0, x, t, t1, spare, path, d, i, k, n) && forall c :: !Lost(geo, t0, k, c)
    ensures t.orphans == t0.orphans
  {
    hide Inv, SpaceOk, RefsOk, LayoutOk, Freed, LostSince, Pruned, Ghosted, Inside, SubEntries, Resolve, AllHandled,
      Left;
    InvParts(geo, x, t, lay);
    forall c
      ensures c !in spare
    {
      if LostSince(geo, t0, t1, k, c) {
        LostSome(geo, t0, t1, k, c);
      }
    }
    PrunedOrphans(t0, t1, k);
    GhostOrphans(geo, x, t, t1, spare);
  }

  lemma {:induction false} GoneNames(geo: Geo, x0: Disk, t0: Tree, x: Disk, t: Tree, d: nat, i: nat)
    requires EntryAt(t0, d, i) && TreeGone(geo, x0, t0, x, t, d, i)
    ensures geo.ClusBytes() > 0 && OrphansLeft(geo, t0, t, EntAt(t0, d, i).first)
  {
    hide OwnersLeft, BitsLeft, OrphansLeft, Inside;
  }

  lemma {:induction false} LostSome(geo: Geo, t0: Tree, t: Tree, k: nat, c: nat)
    requires geo.ClusBytes() > 0 && LostSince(geo, t0, t, k, c)
    ensures Lost(geo, t0, k, c)
  {
    hide Left, Inside;
  }

  lemma {:induction false} BaseShort(path: Path)
    requires PathFits(path)
    ensures TextSize(Parent(path)) < PART - 1 && |Base(path)| < PART && TextSize(path) < TREE_PATH
  {
  }

  /** The first entry of a listing. */
  lemma {:induction false} ListedFirst(ents: seq<Entry>, max: nat)
    requires max > 0
    ensures
      var l := Listings(if |ents| <= max then ents else ents[..max]);
      (|l| == 0 <==> ents == []) && (ents != [] ==> l[0] == ListedAs(ents[0]))
  {
  }

  /** Whatever comes of the rest, what the first pass found is gone. */
  ghost predicate FirstGone(geo: Geo, t0: Tree, t: Tree, path: Path)
    requires RefsOk(geo, t0)
  {
    var end := Descent(geo, t0, path);
    end.Some? && end.value != path && OneCode(geo, t0, end.value) == 0 ==>
      var at := Target(geo, t0, end.value); at.Some? && !EntryAt(t, at.value.0, at.value.1)
  }

  /** What a pass has done to the volume. */
  ghost predicate PassDone(geo: Geo, x: Disk, t: Tree, y: Disk, t': Tree, path: Path, ok: bool)
    requires RefsOk(geo, t)
  {
    var end := Descent(geo, t, path);
    if end.None? || end.value == path || OneCode(geo, t, end.value) != 0 then ok == (end == Some(path)) && y == x
      && t' == t
    else
      && ok && Target(geo, t, end.value).Some? && geo.ClusBytes() > 0
      && var (d, i) := Target(geo, t, end.value).value;
         Unlinked(geo, x, t, y, t', d, i)
  }

  // ---- Which deletions leave clusters behind -----------------------------------------------------

  /** The entry that a pass deletes. */
  ghost function PassStep(geo: Geo, t: Tree, path: Path): (r: Option<(nat, nat)>)
    requires RefsOk(geo, t)
    ensures r.Some? ==> EntryAt(t, r.value.0, r.value.1)
  {
    var end := Descent(geo, t, path);
    if end.None? || end.value == path || OneCode(geo, t, end.value) != 0 then None else Target(geo, t, end.value)
  }

  /** Deleting this path, with at most n passes if it is a directory with entries, leaves clusters in use
      that nothing names: the path's own entry does, or the entry that one of the passes deletes. */
  ghost predicate DeleteHarms(geo: Geo, t: Tree, path: Path, n: nat)
    requires RefsOk(geo, t)
    decreases n
  {
    && geo.ClusBytes() > 0
    && if DeleteCode(geo, t, path) == 0 then
         var at := Resolve(geo, t, path);
         at.Some? && LeavesOrphans(geo, t, at.value.0, at.value.1)
       else
         && DeleteCode(geo, t, path) == -2 && n > 0 && PassStep(geo, t, path).Some?
         && var (d, i) := PassStep(geo, t, path).value;
            LeavesOrphans(geo, t, d, i)
            || (RefsOk(geo, Without(geo, t, d, i)) && DeleteHarms(geo, Without(geo, t, d, i), path, n - 1))
  }

  /** A pass over a directory with entries. */
  lemma {:induction false} PassHarms(geo: Geo, x: Disk, t: Tree, lay: Layout, y: Disk, t': Tree, path: Path, ok: bool,
      n: nat)
    requires Inv(geo, x, t, lay) && RefsOk(geo, t) && RefsOk(geo, t') && PassDone(geo, x, t, y, t', path, ok)
    requires DeleteCode(geo, t, path) == -2 && path != [] && n > 0
    ensures t.orphans <= t'.orphans
    ensures !ok ==> t' == t && !DeleteHarms(geo, t, path, n)
    ensures ok ==> (DeleteHarms(geo, t, path, n) <==> t'.orphans != t.orphans || DeleteHarms(geo, t', path, n - 1))
  {
    hide Inv, SpaceOk, RefsOk, LayoutOk, Descent, OneCode, Target, LeavesOrphans, Without, NoEntries, LeafPath, EntryOk,
      GoneFrom, Freed;
    InvParts(geo, x, t, lay);
    FullDirAt(geo, t, path);
    var k := ResolveDir(geo, t, path).value;
    var end := Descent(geo, t, path);
    if end.Some? {
      DescentEnds(geo, t, k, path, path, end.value);
    }
    if PassStep(geo, t, path).Some? {
      var (d, i) := PassStep(geo, t, path).value;
      OrphansExact(geo, x, t, d, i);
    }
  }

  lemma {:induction false} FullDirAt(geo: Geo, t: Tree, path: Path)
    requires RefsOk(geo, t) && DeleteCode(geo, t, path) == -2
    ensures ResolveDir(geo, t, path).Some? && !NoEntries(t.dirs[ResolveDir(geo, t, path).value])
  {
    hide RefsOk, EntryOk, NoEntries;
    var (d, i) := Resolve(geo, t, path).value;
    ChildRef(geo, t, d, i);
  }

  lemma {:induction false} NoHarms(geo: Geo, t: Tree, path: Path, n: nat)
    requires RefsOk(geo, t) && (DeleteCode(geo, t, path) == -1 || (DeleteCode(geo, t, path) == -2 && n == 0))
    ensures !DeleteHarms(geo, t, path, n)
  {
    hide RefsOk, Resolve, DeleteCode;
  }

  /** A path's own entry. */
  lemma {:induction false} OneHarms(geo: Geo, x: Disk, t: Tree, lay: Layout, y: Disk, t': Tree, path: Path, n: nat)
    requires Inv(geo, x, t, lay) && RefsOk(geo, t) && DeleteCode(geo, t, path) == 0 && Deleted(geo, x, t, y, t', path)
    ensures t.orphans <= t'.orphans && (t'.orphans == t.orphans <==> !DeleteHarms(geo, t, path, n))
  {
    hide Inv, SpaceOk, RefsOk, LayoutOk, Resolve, DeleteCode, LeavesOrphans, Without, GoneFrom, Freed;
    InvParts(geo, x, t, lay);
    var (d, i) := Resolve(geo, t, path).value;
    OrphansExact(geo, x, t, d, i);
  }

  lemma {:induction false} FirstStays(geo: Geo, t0: Tree, t: Tree, t': Tree, path: Path)
    requires RefsOk(geo, t0) && FirstGone(geo, t0, t, path)
    requires forall d, j :: EntryAt(t', d, j) ==> EntryAt(t, d, j)
    ensures FirstGone(geo, t0, t', path)
  {
    hide RefsOk, Descent, OneCode, Target, EntryAt;
  }

  lemma {:induction false} AfterPass(geo: Geo, x0: Disk, t0: Tree, lay0: Layout, x: Disk, t: Tree, lay: Layout,
      y: Disk, t': Tree, path: Path, ok: bool, s: Stream, data: seq<Byte>)
    requires Inv(geo, x0, t0, lay0) && Inv(geo, x, t, lay) && RefsOk(geo, t0) && RefsOk(geo, t)
    requires Kin(geo, x0, t0, x, t) && StreamOk(geo, x.heap, t, s, data) && PassDone(geo, x, t, y, t', path, ok)
    requires (t == t0 || FirstGone(geo, t0, t, path)) && RefsOk(geo, t')
    ensures Kin(geo, x0, t0, y, t') && StreamOk(geo, y.heap, t', s, data) && FirstGone(geo, t0, t', path)
  {
    hide Inv, RefsOk, Kin, StreamOk, Descent, OneCode, Target, Unlinked, EntryAt, Inside, TextTo;
    var end := Descent(geo, t, path);
    if end.Some? && end.value != path && OneCode(geo, t, end.value) == 0 {
      var (d, i) := Target(geo, t, end.value).value;
      TargetShort(geo, t, end.value);
      KinStep(geo, x0, t0, lay0, x, t, lay, y, t', d, i, s, data);
      if t != t0 {
        FirstStays(geo, t0, t, t', path);
      }
    }
  }

  /** Where paths stay short, a pass over a directory that is not empty deletes one leaf, or finds a name
      or a path that does not fit. */
  lemma {:induction false} ClearingPass(geo: Geo, x0: Disk, t0: Tree, lay0: Layout, x: Disk, t: Tree, lay: Layout,
      y: Disk, t': Tree, lay': Layout, t1: Tree, spare: seq<nat>, path: Path, d: nat, i: nat, k: nat, n: nat, ok: bool)
    returns (t1': Tree, spare': seq<nat>)
    requires Inv(geo, x0, t0, lay0) && Inv(geo, x, t, lay) && Inv(geo, y, t', lay') && RefsOk(geo, t) && RefsOk(geo, t')
    requires Clearing(geo, t0, x, t, t1, spare, path, d, i, k, n) && Shallow(t0, k, TextSize(path))
    requires k in t.dirs && !NoEntries(t.dirs[k]) && PassDone(geo, x, t, y, t', path, ok)
    ensures if ok then Clearing(geo, t0, y, t', t1', spare', path, d, i, k, n + 1)
      else t' == t && y == x && !Fits(t0, k, TextSize(path))
    ensures !ok ==> t1' == t1 && spare' == spare
  {
    hide Inv, RefsOk, Clearing, Shallow, Fits, Descent, OneCode, Target, Unlinked, NoEntries, LeafPath, Resolve,
      ResolveDir, Handled, Leaf, Inside;
    t1', spare' := t1, spare;
    ClearingAt(geo, t0, x, t, t1, spare, path, d, i, k, n);
    ClearingShort(geo, x0, t0, lay0, x, t, t1, spare, path, d, i, k, n);
    var end := Descent(geo, t, path);
    if end.Some? {
      DescentEnds(geo, t, k, path, path, end.value);
    }
    if Fits(t, k, TextSize(path)) {
      ExactlyTop(geo, t, k, path);
      FitsDescends(geo, t, k, path, path, k);
    }
    if ok {
      LeafFound(geo, t, k, path, end.value);
      var (d', i') := Target(geo, t, end.value).value;
      ClearingStep(geo, x0, t0, lay0, x, t, lay, y, t', lay', t1, spare, path, d, i, k, n, d', i');
      t1', spare' := Detached(t1, d', i'), Left(geo, t, EntAt(t, d', i')) + spare;
    }
  }

  lemma {:induction false} ExactlyTop(geo: Geo, t: Tree, k: nat, path: Path)
    requires RefsOk(geo, t) && ResolveDir(geo, t, path) == Some(k) && path != []
    ensures Exactly(geo, t, k, path, path, k)
  {
    hide RefsOk, ResolveDir;
  }

  lemma {:induction false} ClearingShort(geo: Geo, x0: Disk, t0: Tree, lay0: Layout, x: Disk, t: Tree, t1: Tree,
      spare: seq<nat>, path: Path, d: nat, i: nat, k: nat, n: nat)
    requires Inv(geo, x0, t0, lay0) && RefsOk(geo, t) && Clearing(geo, t0, x, t, t1, spare, path, d, i, k, n)
    ensures Shallow(t0, k, TextSize(path)) ==> Shallow(t, k, TextSize(path))
    ensures Fits(t0, k, TextSize(path)) ==> Fits(t, k, TextSize(path))
  {
    hide Inv, RefsOk, SpaceOk, Freed, LostSince, Resolve, AllHandled, Pruned, Ghosted, Shallow, Fits, SubEntries;
    InvRefs(geo, x0, t0, lay0);
    ShortKept(geo, t0, t, t1, k, TextSize(path));
  }

  /** The directory's own entry deleted after its contents. */
  lemma {:induction false} ClearingEnds(geo: Geo, x0: Disk, t0: Tree, lay0: Layout, x: Disk, t: Tree, lay: Layout,
      y: Disk, t': Tree, lay': Layout, t1: Tree, spare: seq<nat>, path: Path, d: nat, i: nat, k: nat, n: nat)
    requires Inv(geo, x0, t0, lay0) && Inv(geo, x, t, lay) && Inv(geo, y, t', lay') && RefsOk(geo, t)
    requires Clearing(geo, t0, x, t, t1, spare, path, d, i, k, n) && DeleteCode(geo, t, path) == 0
    requires geo.ClusBytes() > 0 && Unlinked(geo, x, t, y, t', d, i)
    ensures EntryAt(t0, d, i) && EntAt(t0, d, i).first == k && TreeGone(geo, x0, t0, y, t', d, i)
    ensures Fits(t0, k, TextSize(path)) && |SubEntries(t0, k)| == n
  {
    hide Inv, RefsOk, Behind, AllHandled, Resolve, ResolveDir, DeleteCode, Unlinked, TreeGone, Fits, SubEntries,
      NoEntries;
    ClearingAt(geo, t0, x, t, t1, spare, path, d, i, k, n);
    ClearedAll(geo, t0, x, t, t1, spare, path, d, i, k, n);
    LeafTopDir(geo, t, d, i, k);
    TreeGoneStep(geo, x0, t0, lay0, x, t, lay, y, t', lay', t1, spare, d, i, k);
  }

  lemma {:induction false} LeafTopDir(geo: Geo, t: Tree, d: nat, i: nat, k: nat)
    requires EntryAt(t, d, i) && EntAt(t, d, i).first == k && k in t.dirs && NoEntries(t.dirs[k])
    ensures Leaf(t, d, i)
  {
  }

  /** A single deletion, seen as the first of many. */
  lemma {:induction false} KinUnlinked(geo: Geo, x0: Disk, t0: Tree, lay0: Layout, x: Disk, t: Tree, lay: Layout,
      y: Disk, t': Tree, path: Path, s: Stream, data: seq<Byte>)
    requires Inv(geo, x0, t0, lay0) && Inv(geo, x, t, lay) && RefsOk(geo, t) && Kin(geo, x0, t0, x, t)
    requires Resolve(geo, t, path).Some? && geo.ClusBytes() > 0 && StreamOk(geo, x.heap, t, s, data)
    requires RefsOk(geo, t') && Target(geo, t, path) == Resolve(geo, t, path)
    requires var (d, i) := Resolve(geo, t, path).value; Unlinked(geo, x, t, y, t', d, i)
    ensures Deleted(geo, x, t, y, t', path) && Kin(geo, x0, t0, y, t') && StreamOk(geo, y.heap, t', s, data)
    ensures forall d, j :: EntryAt(t', d, j) ==> EntryAt(t, d, j)
  {
    hide Inv, RefsOk, Kin, Unlinked, Resolve, Target, StreamOk, EntryAt, Inside, TextTo;
    var (d, i) := Resolve(geo, t, path).value;
    TargetShort(geo, t, path);
    KinStep(geo, x0, t0, lay0, x, t, lay, y, t', d, i, s, data);
  }

  lemma {:induction false} CodeRange(geo: Geo, t: Tree, path: Path)
    requires RefsOk(geo, t)
    ensures DeleteCode(geo, t, path) in {0, -1, -2}
    ensures DeleteCode(geo, t, path) == 0 ==> Resolve(geo, t, path).Some?
  {
    hide RefsOk, Resolve, NoEntries;
  }

  lemma {:induction false} ClearingMore(geo: Geo, t0: Tree, x: Disk, t: Tree, t1: Tree, spare: seq<nat>, path: Path,
      d: nat, i: nat, k: nat, n: nat)
    requires RefsOk(geo, t) && Clearing(geo, t0, x, t, t1, spare, path, d, i, k, n) && k in t.dirs
      && !NoEntries(t.dirs[k])
    ensures |SubEntries(t0, k)| > n
  {
    hide RefsOk, SpaceOk, Pruned, Freed, LostSince, Resolve, AllHandled, Ghosted, SubEntries, NoEntries;
    SomeLeft(geo, t, t1, k);
  }

  /** What lies too deep for the path buffer keeps its clusters through any deletion. */
  lemma {:induction false} DeepStays(geo: Geo, x0: Disk, t0: Tree, x: Disk, t: Tree, path: Path, k: nat, d: nat, i: nat)
    requires RefsOk(geo, t0) && Kin(geo, x0, t0, x, t) && ResolveDir(geo, t0, path) == Some(k)
    requires EntryAt(t0, d, i) && Inside(t0, k, d) && TextSize(path) + TextTo(t0, k, d) >= PART - 1
    ensures
      var o := EntAt(t0, d, i).first;
      o in t0.own ==> o in t.own && t.own[o] == t0.own[o]
  {
    hide RefsOk, Inside, TextTo, ResolveDir, Fewer, FilesKept, Rooted;
    PathText(geo, t0, path, k);
    DirListed(t0, d, i);
    TextSplit(geo, t0, k, d);
    var o := EntAt(t0, d, i).first;
    if o in t0.own {
      LeafRef(geo, t0, d, i);
      assert Deep(geo, t0, o);
    }
  }

  /** Deleting everything below directory k leaves nothing behind exactly when no contiguous file there is
      longer than 4 GiB less one cluster. */
  lemma {:induction false} LostExact(geo: Geo, x: Disk, t: Tree, k: nat)
    requires geo.Valid() && SpaceOk(geo, x, t.own, t.at) && RefsOk(geo, t)
    ensures (forall c :: !Lost(geo, t, k, c)) <==> forall d, i :: EntryAt(t, d, i) && Inside(t, k, d) ==>
      var e := EntAt(t, d, i); e.first !in t.own || !e.contig || e.size <= TWO32 - geo.ClusBytes()
  {
    hide SpaceOk, RefsOk, Inside, Left;
    forall d: nat, i: nat | EntryAt(t, d, i) && Inside(t, k, d)
      ensures
        var e := EntAt(t, d, i);
        (forall c :: c !in Left(geo, t, e)) <==> e.first !in t.own || !e.contig || e.size <= TWO32 - geo.ClusBytes()
    {
      OwnedSome(geo, x, t, EntAt(t, d, i).first);
      LeftNothing(geo, t, d, i);
      var rest := Left(geo, t, EntAt(t, d, i));
      assert rest != [] ==> rest[0] in rest;
    }
    if d: nat, i: nat, c :| EntryAt(t, d, i) && Inside(t, k, d) && c in Left(geo, t, EntAt(t, d, i)) {
      assert Lost(geo, t, k, c);
    }
  }

  lemma {:induction false} OwnedSome(geo: Geo, x: Disk, t: Tree, k: nat)
    requires SpaceOk(geo, x, t.own, t.at)
    ensures k in t.own ==> t.own[k].chain != [] && t.own[k].chain[0] == k
  {
    hide DiskOk, Placed, Charted;
  }

  /** A whole subtree can only be deleted when every entry with clusters, all of which deletions reach, lies in
      a directory with a path text below 255 bytes. */
  lemma {:induction false} GoneNeedsShort(geo: Geo, x0: Disk, t0: Tree, x: Disk, t: Tree, path: Path, d: nat, i: nat,
      d': nat, j: nat)
    requires geo.Valid() && RefsOk(geo, t0) && SpaceOk(geo, x0, t0.own, t0.at) && SpaceOk(geo, x, t.own, t.at)
    requires Kin(geo, x0, t0, x, t) && Resolve(geo, t0, path) == Some((d, i)) && EntAt(t0, d, i).isDir
    requires TreeGone(geo, x0, t0, x, t, d, i)
    requires EntryAt(t0, d', j) && Inside(t0, EntAt(t0, d, i).first, d') && EntAt(t0, d', j).first in t0.own
    requires Left(geo, t0, EntAt(t0, d', j)) == []
    ensures TextSize(path) + TextTo(t0, EntAt(t0, d, i).first, d') < PART - 1
  {
    hide RefsOk, SpaceOk, Kin, Inside, TextTo, Resolve, Left, Under, Lost, OrphansLeft, OwnersLeft, EntryOk;
    var k, o := EntAt(t0, d, i).first, EntAt(t0, d', j).first;
    PathSplit(geo, t0, path);
    if TextSize(path) + TextTo(t0, k, d') >= PART - 1 {
      DeepStays(geo, x0, t0, x, t, path, k, d', j);
      OwnedSome(geo, x0, t0, o);
      OwnedMarked(geo, x0, t0, o);
      OwnedMarked(geo, x, t, o);
      LeafRef(geo, t0, d', j);
      UnderNamed(t0, k, d', o);
      if Lost(geo, t0, k, o) {
        LostOwner(geo, x0, t0, k, o, d', j);
      }
    }
  }

  lemma {:induction false} UnderNamed(t: Tree, k: nat, d: nat, o: nat)
    requires o in t.refs && t.refs[o].0 == d && Inside(t, k, d)
    ensures Under(t, k, o)
  {
    hide Inside;
  }

  lemma {:induction false} OwnedMarked(geo: Geo, x: Disk, t: Tree, o: nat)
    requires SpaceOk(geo, x, t.own, t.at) && o in t.own
    ensures 2 <= o < geo.Total() && |x.bits| == geo.Total() && x.bits[o] && o in t.at && t.at[o].0 == o
  {
    assert t.own[o].chain[0] == o;
  }

  lemma {:induction false} LostOwner(geo: Geo, x: Disk, t: Tree, k: nat, c: nat, d: nat, i: nat)
    requires geo.Valid() && SpaceOk(geo, x, t.own, t.at) && RefsOk(geo, t) && Lost(geo, t, k, c)
    requires EntryAt(t, d, i) && EntAt(t, d, i).first == c && c in t.own && c in t.at && t.at[c].0 == c
    ensures Left(geo, t, EntAt(t, d, i)) != []
  {
    hide SpaceOk, RefsOk, Inside, Left;
    var d', j :| EntryAt(t, d', j) && Inside(t, k, d') && c in Left(geo, t, EntAt(t, d', j));
    LeftPlaced(geo, x, t, d', j, c);
    LeafRef(geo, t, d, i);
    LeafRef(geo, t, d', j);
  }
}
