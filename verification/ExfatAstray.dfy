/** A tree deletion that reaches outside its directory: below a path of 255 bytes the driver loses the last
    byte of the directory part, and so deletes in the directory whose name is one byte shorter. */
module ExfatAstray {
  import opened Arith
  import opened Bytes
  import opened ExfatNames
  import opened ExfatEntrySet
  import opened ExfatSpace
  import opened ExfatTree
  import opened ExfatContents
  import opened ExfatTarget
  import opened ExfatSubtree
  import opened ExfatPasses

  /** A name of n letters. */
  function Letters(n: nat): (r: Name)
    ensures |r| == n
  {
    if n == 0 then [] else Letters(n - 1) + [97]
  }

  function LongName(): (r: Name)
    ensures |r| == 250
  {
    Letters(250)
  }

  const FO: Name := [102, 111]
  const FO1: Name := [102, 111, 49]
  const X: Name := [120]

  function DirOf(geo: Geo, name: Name,
      first: nat): Option<Entry> { Some(Entry(name, true, first, geo.ClusBytes(), false)) }

  /** Below the root one directory with a long name; in it "fo" and "fo1"; in each of these a file "x". */
  function TwoTwins(geo: Geo): Tree {
    Tree(map[2 := Owner([2], false), 3 := Owner([3], false), 4 := Owner([4], false), 5 := Owner([5], false)],
         map[2 := (2, 0), 3 := (3, 0), 4 := (4, 0), 5 := (5, 0)],
         map[2 := [DirOf(geo, LongName(), 3)], 3 := [DirOf(geo, FO, 4), DirOf(geo, FO1, 5)],
             4 := [Some(Entry(X, false, 0, 0, false))], 5 := [Some(Entry(X, false, 0, 0, false))]],
         map[3 := (2, 0), 4 := (3, 0), 5 := (3, 1)], {}, map[2 := 0, 3 := 1, 4 := 2, 5 := 2], {})
  }

  lemma {:induction false} TwinsOk(geo: Geo)
    requires geo.Valid() && geo.root == 2
    ensures RefsOk(geo, TwoTwins(geo))
  {
    hide LongName;
    var t := TwoTwins(geo);
    forall d, i | EntryAt(t, d, i)
      ensures EntryOk(geo, t, d, i)
    {
    }
  }

  function TwinPath(name: Name): Path { [LongName(), name] }

  lemma {:induction false} TwinText(name: Name)
    ensures TextSize(TwinPath(name)) == 252 + |name|
  {
    var p := TwinPath(name);
    assert p[..1] == [LongName()];
    assert TextSize([LongName()]) == 251 by { assert [LongName()][..0] == []; }
  }

  lemma {:induction false} FoundFirst(dir: Dir, want: Name)
    requires dir != [] && dir[0].Some? && dir[0].value.name == want
    ensures Find(dir, want) == 0
  {
    assert NameEq(want, want);
  }

  lemma {:induction false} TwinResolves(geo: Geo, t: Tree, i: nat)
    requires geo.Valid() && geo.root == 2 && t == TwoTwins(geo) && RefsOk(geo, t) && i < 2
    ensures
      var p := TwinPath(if i == 0 then FO else FO1);
      Resolve(geo, t, p) == Some((3, i)) && ResolveDir(geo, t, p) == Some(4 + i)
  {
    hide LongName, RefsOk, EntryOk;
    var top := [LongName()];
    assert top[..0] == [];
    assert ResolveDir(geo, t, top[..0]) == Some(2);
    FoundFirst(t.dirs[2], LongName());
    assert Resolve(geo, t, top) == Some((2, 0));
    assert ResolveDir(geo, t, top) == Some(3);
    var p := TwinPath(if i == 0 then FO else FO1);
    assert p[..1] == top;
    if i == 0 {
      FoundFirst(t.dirs[3], FO);
    } else {
      FindIs(t.dirs[3], FO1, 1);
    }
  }

  lemma {:induction false} XFound(geo: Geo, t: Tree, d: nat)
    requires t == TwoTwins(geo) && 4 <= d <= 5
    ensures Find(t.dirs[d], X) == 0 && Entries(t.dirs[d]) == [Entry(X, false, 0, 0, false)] && !NoEntries(t.dirs[d])
  {
    hide LongName;
    FoundFirst(t.dirs[d], X);
    assert t.dirs[d][1..] == [];
    assert t.dirs[d][0] != None;
  }

  lemma {:induction false} TwinCut(end: Path)
    requires end == TwinPath(FO1) + [X]
    ensures DirPart(end) == TwinPath(FO)
  {
    TwinText(FO1);
    var p := TwinPath(FO1);
    assert Parent(end) == p;
    assert p[..1] == [LongName()];
    assert TextSize([LongName()]) == 251 by { assert [LongName()][..0] == []; }
    assert FO1[..2] == FO;
    assert [LongName()] + [FO] == TwinPath(FO);
  }

  lemma {:induction false} TwinTarget(geo: Geo, t: Tree, end: Path)
    requires geo.Valid() && geo.root == 2 && t == TwoTwins(geo) && RefsOk(geo, t) && end == TwinPath(FO1) + [X]
    ensures Target(geo, t, end) == Some((4, 0)) && OneCode(geo, t, end) == 0
  {
    TwinCut(end);
    TwinResolves(geo, t, 0);
    XFound(geo, t, 4);
    hide LongName, RefsOk, EntryOk, DirPart, ResolveDir, TwinPath, NoEntries;
    NextText(TwinPath(FO1), X);
  }

  lemma {:induction false} TwinDescent(geo: Geo, t: Tree)
    requires geo.Valid() && geo.root == 2 && t == TwoTwins(geo) && RefsOk(geo, t)
    ensures Descent(geo, t, TwinPath(FO1)) == Some(TwinPath(FO1) + [X])
  {
    TwinText(FO1);
    TwinResolves(geo, t, 1);
    XFound(geo, t, 5);
    hide LongName, RefsOk, EntryOk, ResolveDir, TwinPath, TextSize, Entries;
  }

  lemma {:induction false} TwinShort(geo: Geo, t: Tree)
    requires geo.Valid() && geo.root == 2 && t == TwoTwins(geo) && RefsOk(geo, t)
    ensures Resolve(geo, t, TwinPath(FO) + [X]) == Some((4, 0))
  {
    TwinResolves(geo, t, 0);
    XFound(geo, t, 4);
    var p := TwinPath(FO) + [X];
    assert p[..|p| - 1] == TwinPath(FO);
    hide LongName, RefsOk, EntryOk, ResolveDir, TwinPath;
  }

  lemma {:induction false} TwinCode(geo: Geo, t: Tree)
    requires geo.Valid() && geo.root == 2 && t == TwoTwins(geo) && RefsOk(geo, t)
    ensures DeleteCode(geo, t, TwinPath(FO1)) == -2 && !Inside(t, 5, 4)
  {
    TwinResolves(geo, t, 1);
    XFound(geo, t, 5);
    hide LongName, RefsOk, EntryOk, Resolve, ResolveDir, TwinPath, NoEntries;
    assert !Inside(t, 5, 2);
    assert !Inside(t, 5, 3);
  }

  /** Deleting ".../fo1" first deletes ".../fo/x", which is not below it. */
  lemma {:induction false} Astray(geo: Geo)
    requires geo.Valid() && geo.root == 2
    ensures
      var t, path := TwoTwins(geo), TwinPath(FO1);
      && RefsOk(geo, t) && PathFits(path) && DeleteCode(geo, t, path) == -2 && ResolveDir(geo, t, path) == Some(5)
      && Resolve(geo, t, TwinPath(FO) + [X]) == Some((4, 0)) && !Inside(t, 5, 4)
      && forall t' :: FirstGone(geo, t, t', path) ==> !EntryAt(t', 4, 0)
  {
    TwinsOk(geo);
    var t, path := TwoTwins(geo), TwinPath(FO1);
    hide LongName, RefsOk, EntryOk, TwoTwins, TwinPath, Descent, OneCode, Target, Resolve, ResolveDir, DeleteCode,
      EntryAt, Inside;
    TwinText(FO1);
    TwinResolves(geo, t, 1);
    TwinCode(geo, t);
    TwinShort(geo, t);
    TwinDescent(geo, t);
    TwinTarget(geo, t, path + [X]);
    NextText(path, X);
  }
}
