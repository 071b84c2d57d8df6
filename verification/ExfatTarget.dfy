/** Which entry a deletion acts on: the driver splits a path into a directory part and a last
    component, and cuts a directory part too long for its buffer. */
module ExfatTarget {
  import opened Arith
  import opened Bytes
  import opened ExfatNames
  import opened ExfatEntrySet
  import opened ExfatSpace
  import opened ExfatTree
  import opened ExfatOps
  import opened ExfatContents

  /** Size of the buffers for both parts of a path, terminators included. */
  const PART: nat := 256

  /** The path whose written form is the first n bytes of that of `path`; its last component may be cut
      short, or empty. */
  function Cut(path: Path, n: nat): (r: Path)
    ensures TextSize(r) == Min(n, TextSize(path))
  {
    if TextSize(path) <= n then path
    else
      var up, base := path[..|path| - 1], path[|path| - 1];
      if n <= TextSize(up) then Cut(up, n)
      else
        var r := up + [base[..n - TextSize(up) - 1]];
        assert r[..|r| - 1] == up;
        r
  }

  /** The directory part as the driver gets it: one of 255 bytes or more is cut to 254. */
  function DirPart(path: Path): Path {
    if TextSize(Parent(path)) < PART - 1 then Parent(path) else Cut(Parent(path), PART - 2)
  }

  /** The entry that a deletion of this path acts on: directory and index. */
  function Target(geo: Geo, t: Tree, path: Path): (r: Option<(nat, nat)>)
    requires RefsOk(geo, t)
    ensures r.Some? ==> EntryAt(t, r.value.0, r.value.1)
  {
    if path == [] then None
    else
      var d := ResolveDir(geo, t, DirPart(path));
      if d == None then None
      else
        var i := Find(t.dirs[d.value], Base(path));
        if i == |t.dirs[d.value]| then None else Some((d.value, i))
  }

  /** The result code of deleting a single entry; whether a directory is empty is looked up by the
      uncut path. */
  function OneCode(geo: Geo, t: Tree, path: Path): int
    requires RefsOk(geo, t)
  {
    var at := Target(geo, t, path);
    if at == None then -1
    else
      var k := ResolveDir(geo, t, path);
      if EntAt(t, at.value.0, at.value.1).isDir && k.Some? && !NoEntries(t.dirs[k.value]) then -2 else 0
  }

  // ---- How long the path to a directory is -------------------------------------------------

  /** Length of the path text from directory k down to directory d. */
  function TextTo(t: Tree, k: nat, d: nat): nat
    decreases if d in t.depth then t.depth[d] else 0
  {
    if d == k then 0
    else if d in t.refs && d in t.depth && t.refs[d].0 in t.depth && t.depth[t.refs[d].0] < t.depth[d]
            && EntryAt(t, t.refs[d].0, t.refs[d].1)
    then TextTo(t, k, t.refs[d].0) + 1 + |EntAt(t, t.refs[d].0, t.refs[d].1).name|
    else 0
  }

  lemma {:induction false} DirAbove(geo: Geo, t: Tree, d: nat, i: nat)
    requires RefsOk(geo, t) && EntryAt(t, d, i) && EntAt(t, d, i).isDir
    ensures
      var f := EntAt(t, d, i).first;
      d in t.depth && f in t.depth && t.depth[d] < t.depth[f] && f in t.refs && t.refs[f] == (d, i) && f != geo.root
  {
    ChildRef(geo, t, d, i);
    hide EntriesOk;
    assert RefOk(geo, t, EntAt(t, d, i).first);
  }

  /** All paths to one directory are equally long. */
  lemma {:induction false} PathText(geo: Geo, t: Tree, path: Path, d: nat)
    requires RefsOk(geo, t) && ResolveDir(geo, t, path) == Some(d)
    ensures TextSize(path) == TextTo(t, geo.root, d)
    decreases |path|
  {
    hide RefsOk, EntryOk;
    if path != [] {
      var (p, i) := Resolve(geo, t, path).value;
      PathText(geo, t, path[..|path| - 1], p);
      DirAbove(geo, t, p, i);
    }
  }

  /** A deletion acts on the entry its path names exactly when the directory part fits the buffer. */
  lemma {:induction false} TargetExact(geo: Geo, t: Tree, path: Path)
    requires RefsOk(geo, t) && Resolve(geo, t, path).Some?
    ensures Target(geo, t, path) == Resolve(geo, t, path) <==> TextSize(Parent(path)) < PART - 1
  {
    hide RefsOk, EntryOk;
    if TextSize(Parent(path)) >= PART - 1 && Target(geo, t, path) == Resolve(geo, t, path) {
      var d := Resolve(geo, t, path).value.0;
      PathText(geo, t, Parent(path), d);
      PathText(geo, t, DirPart(path), d);
    }
  }

  /** A path whose directory part fits is deleted as the tree says. */
  lemma {:induction false} TargetFits(geo: Geo, t: Tree, path: Path)
    requires RefsOk(geo, t) && TextSize(Parent(path)) < PART - 1
    ensures Target(geo, t, path) == Resolve(geo, t, path)
    ensures OneCode(geo, t, path) == DeleteCode(geo, t, path)
  {
    hide EntryOk;
    var at := Resolve(geo, t, path);
    if at.Some? && EntAt(t, at.value.0, at.value.1).isDir {
      ChildRef(geo, t, at.value.0, at.value.1);
      hide RefsOk;
      assert ResolveDir(geo, t, path) == Some(EntAt(t, at.value.0, at.value.1).first);
    }
  }

}
