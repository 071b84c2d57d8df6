/** The directory tree: which entry names which owner, how paths resolve, and how each operation
    changes that. Nothing here looks at bytes. */
module ExfatTree {
  import opened Arith
  import opened Bytes
  import opened ExfatNames
  import opened ExfatEntrySet
  import opened ExfatSpace

  type Name = seq<Byte>
  type Path = seq<Name>

  /** The two parts a path is split into. */
  function Parent(path: Path): Path { if path == [] then [] else path[..|path| - 1] }

  function Base(path: Path): Name { if path == [] then [] else path[|path| - 1] }

  /** Length of a path written out with a slash before every component. */
  function TextSize(path: Path): nat {
    if path == [] then 0 else TextSize(path[..|path| - 1]) + 1 + |path[|path| - 1]|
  }

  /** The written path fits the driver's path buffers. */
  predicate PathFits(path: Path) { TextSize(path) < 256 }

  predicate SpellablePath(path: Path) { path != [] ==> Spellable(path[|path| - 1]) }

  /** The contents of one directory: entries in order, with holes where entries were retired. */
  type Dir = seq<Option<Entry>>

  /** The meaning of a volume. `refs` gives the one entry that names an owner; `loose` owners are
      not named yet (an open stream, a directory being made); `depth` orders directories below
      their parents. `orphans` are owners that a deletion left behind without a name: the end of a
      contiguous file too long for the driver's cluster count, or what a directory deleted by mistake
      held. */
  datatype Tree = Tree(own: Owners, at: Places, dirs: map<nat, Dir>, refs: map<nat, (nat, nat)>,
                       loose: set<nat>, depth: map<nat, nat>, orphans: set<nat>)

  predicate EntryAt(t: Tree, d: nat, i: nat) {
    d in t.dirs && i < |t.dirs[d]| && t.dirs[d][i].Some?
  }

  function EntAt(t: Tree, d: nat, i: nat): Entry
    requires EntryAt(t, d, i)
  {
    t.dirs[d][i].value
  }

  /** The recorded length agrees with the allocation. */
  predicate SizeOk(geo: Geo, e: Entry, o: Owner) {
    var bytes := |o.chain| * geo.ClusBytes();
    if e.isDir then e.size == bytes % TWO32
    else if e.contig then bytes - geo.ClusBytes() < e.size <= bytes
    else e.size <= bytes
  }

  // ---- Cluster counts ------------------------------------------------------------------------

  /** The driver's cluster count of a contiguous run, in 32-bit arithmetic. */
  function FreeCount(geo: Geo, len: nat): nat
    requires geo.ClusBytes() > 0
  {
    Div((len % TWO32 + (geo.ClusBytes() - 1)) % TWO32, geo.ClusBytes())
  }

  /** Clusters needed for a length. */
  function ClustersFor(geo: Geo, len: nat): nat
    requires geo.ClusBytes() > 0
  {
    Div(len + (geo.ClusBytes() - 1), geo.ClusBytes())
  }

  /** The 32-bit count releases the whole run exactly when the run is at most 4 GiB less one
      cluster long; a longer contiguous file loses clusters when it is deleted. */
  lemma {:induction false} FreeCountExact(geo: Geo, len: nat)
    requires geo.Valid()
    ensures FreeCount(geo, len) == ClustersFor(geo, len) <==> len <= TWO32 - geo.ClusBytes()
  {
    hide Div;
    var b := geo.ClusBytes();
    assert 512 <= b <= 0x200_0000;
    if len <= TWO32 - b {
    } else if len < TWO32 {
      assert (len % TWO32 + (b - 1)) % TWO32 == len + b - 1 - TWO32 < b;
      DivSmall(len + b - 1 - TWO32, b);
      DivMono(0 + b, len + (b - 1), b);
      DivNext(0, b);
    } else {
      DivMono((len % TWO32 + (b - 1)) % TWO32, TWO32 - 1, b);
      DivMono(TWO32 - 1 + b, len + (b - 1), b);
      DivNext(TWO32 - 1, b);
    }
  }

  lemma {:induction false} ClustersExact(geo: Geo, len: nat, n: nat)
    requires geo.Valid() && n > 0
    requires n * geo.ClusBytes() - geo.ClusBytes() < len <= n * geo.ClusBytes()
    ensures ClustersFor(geo, len) == n
  {
    var b := geo.ClusBytes();
    assert (n - 1) * b == n * b - b;
    UniqueQuotient(len + (b - 1), b, n, len + (b - 1) - n * b);
  }

  /** An entry has a name, and names either nothing or an owner that knows it back. */
  predicate EntryOk(geo: Geo, t: Tree, d: nat, i: nat)
    requires EntryAt(t, d, i)
  {
    var e := EntAt(t, d, i);
    && e.name != [] && e.first < TWO32 && e.size < TWO64
    && if e.first == 0 then e.size == 0 && !e.isDir
       else
         && e.first in t.own && e.first in t.refs && t.refs[e.first] == (d, i)
         && t.own[e.first].contig == e.contig
         && (e.isDir <==> e.first in t.dirs)
         && SizeOk(geo, e, t.own[e.first])
  }

  ghost predicate EntriesOk(geo: Geo, t: Tree) {
    forall d, i :: EntryAt(t, d, i) ==> EntryOk(geo, t, d, i)
  }

  predicate DirsListed(geo: Geo, t: Tree) {
    && geo.root in t.dirs
    && forall k <- t.dirs :: k in t.own && !t.own[k].contig && k in t.depth
  }

  predicate RefOk(geo: Geo, t: Tree, k: nat)
    requires k in t.refs
  {
    && k in t.own && k != geo.root && k !in t.loose && k !in t.orphans
    && EntryAt(t, t.refs[k].0, t.refs[k].1) && EntAt(t, t.refs[k].0, t.refs[k].1).first == k
    && (k in t.dirs ==> t.refs[k].0 in t.depth && k in t.depth && t.depth[t.refs[k].0] < t.depth[k])
  }

  /** Every owner is the root, loose, an orphan, or named by exactly one live entry. */
  ghost predicate RefsOk(geo: Geo, t: Tree) {
    && DirsListed(geo, t)
    && EntriesOk(geo, t)
    && (forall k <- t.refs :: RefOk(geo, t, k))
    && (forall k <- t.own :: k == geo.root || k in t.loose || k in t.refs || k in t.orphans)
    && t.loose <= t.own.Keys && geo.root !in t.loose && 0 !in t.own
    && t.orphans <= t.own.Keys && geo.root !in t.orphans && t.orphans !! t.loose
  }

  // ---- Names and paths -----------------------------------------------------

  predicate Matches(e: Option<Entry>, want: Name) { e.Some? && NameEq(e.value.name, want) }

  /** Index of the first entry with the wanted name, |dir| when there is none. */
  function Find(dir: Dir, want: Name): (i: nat)
    ensures i <= |dir|
    ensures i < |dir| ==> Matches(dir[i], want)
    ensures forall j :: 0 <= j < i ==> !Matches(dir[j], want)
  {
    if dir == [] then 0
    else if Matches(dir[0], want) then 0
    else 1 + Find(dir[1..], want)
  }

  /** The entry a path names: directory and index. */
  function Resolve(geo: Geo, t: Tree, path: Path): (r: Option<(nat, nat)>)
    requires RefsOk(geo, t)
    ensures r.Some? ==> EntryAt(t, r.value.0, r.value.1)
    decreases |path|, 0
  {
    if path == [] then None
    else
      var d := ResolveDir(geo, t, path[..|path| - 1]);
      if d == None then None
      else
        var i := Find(t.dirs[d.value], path[|path| - 1]);
        if i == |t.dirs[d.value]| then None else Some((d.value, i))
  }

  /** The directory a path names. */
  function ResolveDir(geo: Geo, t: Tree, path: Path): (r: Option<nat>)
    requires RefsOk(geo, t)
    ensures r.Some? ==> r.value in t.dirs
    decreases |path|, 1
  {
    if path == [] then Some(geo.root)
    else
      var r := Resolve(geo, t, path);
      if r.Some? && EntAt(t, r.value.0, r.value.1).isDir
      then
        assert EntryOk(geo, t, r.value.0, r.value.1);
        Some(EntAt(t, r.value.0, r.value.1).first)
      else None
  }

  predicate NoEntries(dir: Dir) { forall i :: 0 <= i < |dir| ==> dir[i] == None }

  /** The entries a listing shows. */
  function Entries(dir: Dir): seq<Entry> {
    if dir == [] then []
    else (if dir[0].Some? then [dir[0].value] else []) + Entries(dir[1..])
  }

  lemma {:induction false} EntriesAppend(dir: Dir, e: Entry)
    ensures Entries(dir + [Some(e)]) == Entries(dir) + [e]
  {
    var all := dir + [Some(e)];
    if dir == [] {
      assert all[1..] == [];
      assert Entries(all[1..]) == [];
    } else {
      assert all[1..] == dir[1..] + [Some(e)] && all[0] == dir[0];
      EntriesAppend(dir[1..], e);
      assert Entries(all) == (if dir[0].Some? then [dir[0].value] else []) + (Entries(dir[1..]) + [e]);
    }
  }

  lemma {:induction false} EntriesNone(dir: Dir)
    ensures Entries(dir) == [] <==> NoEntries(dir)
  {
    if dir != [] {
      EntriesNone(dir[1..]);
      if dir[0] == None && NoEntries(dir[1..]) {
        assert forall i :: 0 < i < |dir| ==> dir[i] == dir[1..][i - 1];
      }
      if NoEntries(dir) {
        assert forall i :: 0 <= i < |dir| - 1 ==> dir[1..][i] == dir[i + 1];
      }
    }
  }

  // ---- What the operations do to the tree ------------------------------------

  /** A new entry at the end of directory d names a loose owner, or nothing. */
  function Attached(t: Tree, d: nat, e: Entry): Tree
    requires d in t.dirs && d in t.depth
  {
    t.(dirs := t.dirs[d := t.dirs[d] + [Some(e)]],
       refs := if e.first == 0 then t.refs else t.refs[e.first := (d, |t.dirs[d]|)],
       loose := t.loose - {e.first},
       depth := if e.isDir then t.depth[e.first := t.depth[d] + 1] else t.depth)
  }

  /** What a new entry has to satisfy. */
  predicate Attachable(geo: Geo, t: Tree, d: nat, e: Entry) {
    && d in t.dirs && e.name != [] && e.first < TWO32 && e.size < TWO64
    && if e.first == 0 then e.size == 0 && !e.isDir
       else
         && e.first in t.loose && e.first in t.own && e.first != d
         && t.own[e.first].contig == e.contig
         && (e.isDir <==> e.first in t.dirs) && (e.isDir ==> t.dirs[e.first] == [])
         && SizeOk(geo, e, t.own[e.first])
  }

  lemma {:induction false} RefsEntry(geo: Geo, t: Tree, d: nat, i: nat)
    requires RefsOk(geo, t) && EntryAt(t, d, i)
    ensures EntryOk(geo, t, d, i)
  {
  }

  lemma {:induction false} AttachEntries(geo: Geo, t: Tree, d: nat, e: Entry)
    requires RefsOk(geo, t) && Attachable(geo, t, d, e) && d in t.dirs
    ensures EntriesOk(geo, Attached(t, d, e))
  {
    assert d in t.depth;
    hide RefsOk, EntryOk, Attachable, Attached;
    var t' := Attached(t, d, e);
    forall d', i | EntryAt(t', d', i)
      ensures EntryOk(geo, t', d', i)
    {
      AttachEntry(geo, t, d, e, d', i);
    }
  }

  lemma {:induction false} AttachEntry(geo: Geo, t: Tree, d: nat, e: Entry, d': nat, i: nat)
    requires RefsOk(geo, t) && Attachable(geo, t, d, e) && EntryAt(Attached(t, d, e), d', i)
    ensures EntryOk(geo, Attached(t, d, e), d', i)
  {
    hide SizeOk, EntriesOk;
    if EntryAt(t, d', i) {
      RefsEntry(geo, t, d', i);
      var f := EntAt(t, d', i).first;
      assert f != 0 ==> RefOk(geo, t, f);
    }
  }

  lemma {:induction false} AttachRef(geo: Geo, t: Tree, d: nat, e: Entry, k: nat)
    requires RefsOk(geo, t) && Attachable(geo, t, d, e) && k in Attached(t, d, e).refs
    ensures RefOk(geo, Attached(t, d, e), k)
  {
    hide EntriesOk, SizeOk;
    var t' := Attached(t, d, e);
    if k == e.first && e.first != 0 {
      assert EntryAt(t', d, |t.dirs[d]|);
    } else {
      assert RefOk(geo, t, k);
      assert EntryAt(t', t.refs[k].0, t.refs[k].1);
    }
  }

  /** Adding an entry for a loose owner keeps every owner named exactly once. */
  lemma {:induction false} AttachKeepsRefs(geo: Geo, t: Tree, d: nat, e: Entry)
    requires RefsOk(geo, t) && Attachable(geo, t, d, e)
    ensures RefsOk(geo, Attached(t, d, e))
  {
    AttachEntries(geo, t, d, e);
    var t' := Attached(t, d, e);
    forall k | k in t'.refs
      ensures RefOk(geo, t', k)
    {
      AttachRef(geo, t, d, e, k);
    }
    hide EntriesOk, SizeOk, RefOk;
  }

  /** Entry i of directory d is retired; the owner it named is gone. */
  function Detached(t: Tree, d: nat, i: nat): Tree
    requires EntryAt(t, d, i)
  {
    var f := EntAt(t, d, i).first;
    if f == 0 || f !in t.own then t.(dirs := t.dirs[d := t.dirs[d][i := None]])
    else
      t.(own := t.own - {f}, at := t.at - (set c | c in t.own[f].chain),
         dirs := t.dirs[d := t.dirs[d][i := None]] - {f}, refs := t.refs - {f}, depth := t.depth - {f})
  }

  lemma {:induction false} DetachEntry(geo: Geo, t: Tree, d: nat, i: nat, d': nat, j: nat)
    requires RefsOk(geo, t) && EntryAt(t, d, i) && EntryOk(geo, t, d, i)
    requires EntAt(t, d, i).isDir ==> NoEntries(t.dirs[EntAt(t, d, i).first])
    requires EntryAt(Detached(t, d, i), d', j)
    ensures EntryOk(geo, Detached(t, d, i), d', j)
  {
    hide SizeOk, RefsOk;
    DetachedEntry(t, d, i, d', j);
    RefsEntry(geo, t, d', j);
  }

  lemma {:induction false} DetachedEntry(t: Tree, d: nat, i: nat, d': nat, j: nat)
    requires EntryAt(t, d, i) && EntryAt(Detached(t, d, i), d', j)
    ensures EntryAt(t, d', j) && EntAt(t, d', j) == EntAt(Detached(t, d, i), d', j) && (d' != d || j != i)
  {
  }

  lemma {:induction false} DetachRef(geo: Geo, t: Tree, d: nat, i: nat, k: nat)
    requires RefsOk(geo, t) && EntryAt(t, d, i) && EntryOk(geo, t, d, i)
    requires EntAt(t, d, i).isDir ==> NoEntries(t.dirs[EntAt(t, d, i).first])
    requires k in Detached(t, d, i).refs
    ensures RefOk(geo, Detached(t, d, i), k)
  {
    hide EntriesOk, SizeOk;
    var t' := Detached(t, d, i);
    assert RefOk(geo, t, k);
    assert EntryAt(t', t.refs[k].0, t.refs[k].1);
  }

  /** Retiring a file or an empty directory keeps every remaining owner named exactly once. */
  lemma {:induction false} DetachKeepsRefs(geo: Geo, t: Tree, d: nat, i: nat)
    requires RefsOk(geo, t) && EntryAt(t, d, i)
    requires EntAt(t, d, i).isDir ==>
      EntAt(t, d, i).first in t.dirs && NoEntries(t.dirs[EntAt(t, d, i).first])
    ensures RefsOk(geo, Detached(t, d, i))
  {
    assert EntryOk(geo, t, d, i);
    var t' := Detached(t, d, i);
    forall d', j | EntryAt(t', d', j)
      ensures EntryOk(geo, t', d', j)
    {
      DetachEntry(geo, t, d, i, d', j);
    }
    forall k | k in t'.refs
      ensures RefOk(geo, t', k)
    {
      DetachRef(geo, t, d, i, k);
    }
    hide SizeOk, EntryOk, RefOk;
  }

  /** The owners that the entries of directory f name. */
  function Children(t: Tree, f: nat): set<nat> {
    if f in t.dirs then
      set j | 0 <= j < |t.dirs[f]| && t.dirs[f][j].Some?
        && t.dirs[f][j].value.first in t.own :: t.dirs[f][j].value.first
    else {}
  }

  /** Entry i of directory d is retired, and whatever the directory it named held has lost its name. */
  function Severed(t: Tree, d: nat, i: nat): Tree
    requires EntryAt(t, d, i)
  {
    var t1, lost := Detached(t, d, i), Children(t, EntAt(t, d, i).first);
    t1.(refs := t1.refs - lost, orphans := t1.orphans + lost)
  }

  lemma {:induction false} SeverLeaf(t: Tree, d: nat, i: nat)
    requires EntryAt(t, d, i)
    requires EntAt(t, d, i).first in t.dirs ==> NoEntries(t.dirs[EntAt(t, d, i).first])
    ensures Severed(t, d, i) == Detached(t, d, i)
  {
    assert Children(t, EntAt(t, d, i).first) == {};
    hide Children, Detached;
  }

  /** What the entries of a directory name, they alone name. */
  lemma {:induction false} ChildNamed(geo: Geo, t: Tree, f: nat, k: nat)
    requires RefsOk(geo, t) && k in t.own
    ensures k in Children(t, f) <==> k in t.refs && t.refs[k].0 == f && f in t.dirs
  {
    if k in Children(t, f) {
      var j :| 0 <= j < |t.dirs[f]| && t.dirs[f][j].Some? && t.dirs[f][j].value.first == k;
      assert EntryAt(t, f, j);
      RefsEntry(geo, t, f, j);
      assert k != 0 by { hide EntriesOk; }
      hide RefsOk;
    } else if k in t.refs {
      hide EntriesOk;
      assert RefOk(geo, t, k);
    }
  }

  lemma {:induction false} SeverEntry(geo: Geo, t: Tree, d: nat, i: nat, d': nat, j: nat)
    requires RefsOk(geo, t) && EntryAt(t, d, i) && EntryOk(geo, t, d, i) && EntryAt(Severed(t, d, i), d', j)
    ensures EntryOk(geo, Severed(t, d, i), d', j)
  {
    var f := EntAt(t, d, i).first;
    DetachedEntry(t, d, i, d', j);
    RefsEntry(geo, t, d', j);
    var k := EntAt(t, d', j).first;
    if k != 0 {
      ChildNamed(geo, t, f, k);
      assert RefOk(geo, t, k) by { hide EntriesOk, EntryOk; }
    }
    hide SizeOk, RefsOk, Children;
  }

  lemma {:induction false} SeverRef(geo: Geo, t: Tree, d: nat, i: nat, k: nat)
    requires RefsOk(geo, t) && EntryAt(t, d, i) && EntryOk(geo, t, d, i) && k in Severed(t, d, i).refs
    ensures RefOk(geo, Severed(t, d, i), k)
  {
    hide EntriesOk, SizeOk;
    var t', f := Severed(t, d, i), EntAt(t, d, i).first;
    assert RefOk(geo, t, k);
    ChildNamed(geo, t, f, k);
    hide Children;
    assert EntryAt(t', t.refs[k].0, t.refs[k].1);
  }

  lemma {:induction false} ChildOwned(geo: Geo, t: Tree, f: nat, k: nat)
    requires RefsOk(geo, t) && k in Children(t, f) && (f in t.refs ==> t.refs[f].0 != f)
    ensures k in t.own && k != geo.root && k !in t.loose && k != f
  {
    assert k in t.own;
    ChildNamed(geo, t, f, k);
    hide EntriesOk, Children;
    assert RefOk(geo, t, k);
  }

  lemma {:induction false} SeverEntries(geo: Geo, t: Tree, d: nat, i: nat)
    requires RefsOk(geo, t) && EntryAt(t, d, i) && EntryOk(geo, t, d, i)
    ensures EntriesOk(geo, Severed(t, d, i))
  {
    hide RefsOk, EntryOk, Severed;
    forall d', j | EntryAt(Severed(t, d, i), d', j)
      ensures EntryOk(geo, Severed(t, d, i), d', j)
    {
      SeverEntry(geo, t, d, i, d', j);
    }
  }

  /** Every owner that is left has a place. */
  lemma {:induction false} SeverOwners(geo: Geo, t: Tree, d: nat, i: nat)
    requires RefsOk(geo, t) && EntryAt(t, d, i) && EntryOk(geo, t, d, i)
    ensures
      var t' := Severed(t, d, i);
      && DirsListed(geo, t')
      && (forall k <- t'.own :: k == geo.root || k in t'.loose || k in t'.refs || k in t'.orphans)
      && t'.loose <= t'.own.Keys && geo.root !in t'.loose && 0 !in t'.own
      && t'.orphans <= t'.own.Keys && geo.root !in t'.orphans && t'.orphans !! t'.loose
  {
    hide EntriesOk, SizeOk, Children;
    var f := EntAt(t, d, i).first;
    if f != 0 {
      assert RefOk(geo, t, f);
    }
    forall k | k in Children(t, f)
      ensures k in t.own && k != geo.root && k !in t.loose && k != f
    {
      ChildOwned(geo, t, f, k);
    }
    hide RefOk;
  }

  /** Retiring any entry, even of a directory that is not empty, keeps every remaining owner the root,
      loose, named exactly once or an orphan. */
  lemma {:induction false} SeverKeepsRefs(geo: Geo, t: Tree, d: nat, i: nat)
    requires RefsOk(geo, t) && EntryAt(t, d, i)
    ensures RefsOk(geo, Severed(t, d, i))
  {
    RefsEntry(geo, t, d, i);
    SeverEntries(geo, t, d, i);
    SeverOwners(geo, t, d, i);
    forall k | k in Severed(t, d, i).refs
      ensures RefOk(geo, Severed(t, d, i), k)
    {
      SeverRef(geo, t, d, i, k);
    }
    hide EntriesOk, EntryOk, RefOk, DirsListed, Severed;
  }

  /** Entry i of directory d is replaced by a new entry for the same owner at the end. */
  function Renamed(t: Tree, d: nat, i: nat, e: Entry): Tree
    requires EntryAt(t, d, i)
  {
    t.(dirs := t.dirs[d := (t.dirs[d] + [Some(e)])[i := None]],
       refs := if e.first == 0 then t.refs else t.refs[e.first := (d, |t.dirs[d]|)])
  }

  lemma {:induction false} RenameNewEntry(geo: Geo, t: Tree, d: nat, i: nat, e: Entry)
    requires EntryAt(t, d, i) && EntryOk(geo, t, d, i)
    requires e.name != [] && e == EntAt(t, d, i).(name := e.name)
    ensures
      var t' := Renamed(t, d, i, e);
      EntryAt(t', d, |t.dirs[d]|) && EntryOk(geo, t', d, |t.dirs[d]|)
  {
    if e.first != 0 {
      SizeIgnoresName(geo, EntAt(t, d, i), t.own[e.first], e.name);
    }
    hide SizeOk;
  }

  lemma {:induction false} RenameOldEntry(geo: Geo, t: Tree, d: nat, i: nat, e: Entry, d': nat, j: nat)
    requires EntryAt(t, d, i) && EntryOk(geo, t, d, i)
    requires e == EntAt(t, d, i).(name := e.name)
    requires EntryAt(t, d', j) && EntryOk(geo, t, d', j) && (d' != d || j != i)
    ensures
      var t' := Renamed(t, d, i, e);
      EntryAt(t', d', j) && EntryOk(geo, t', d', j)
  {
    hide SizeOk;
  }

  lemma {:induction false} SizeIgnoresName(geo: Geo, e: Entry, o: Owner, name: Name)
    ensures SizeOk(geo, e.(name := name), o) == SizeOk(geo, e, o)
  {
  }

  /** Renaming keeps every owner named exactly once. */
  lemma {:induction false} RenameKeepsRefs(geo: Geo, t: Tree, d: nat, i: nat, e: Entry)
    requires RefsOk(geo, t) && EntryAt(t, d, i)
    requires e.name != [] && e == EntAt(t, d, i).(name := e.name)
    ensures RefsOk(geo, Renamed(t, d, i, e))
  {
    assert EntryOk(geo, t, d, i);
    var t' := Renamed(t, d, i, e);
    forall d', j | EntryAt(t', d', j)
      ensures EntryOk(geo, t', d', j)
    {
      if d' == d && j == |t.dirs[d]| {
        RenameNewEntry(geo, t, d, i, e);
      } else {
        assert EntryAt(t, d', j);
        RenameOldEntry(geo, t, d, i, e, d', j);
      }
    }
    forall k | k in t'.refs
      ensures RefOk(geo, t', k)
    {
      RenameRef(geo, t, d, i, e, k);
    }
    hide EntriesOk, EntryOk, RefOk;
  }

  lemma {:induction false} RenameRef(geo: Geo, t: Tree, d: nat, i: nat, e: Entry, k: nat)
    requires RefsOk(geo, t) && EntryAt(t, d, i) && EntryOk(geo, t, d, i)
    requires e.name != [] && e == EntAt(t, d, i).(name := e.name)
    requires k in Renamed(t, d, i, e).refs
    ensures RefOk(geo, Renamed(t, d, i, e), k)
  {
    hide EntriesOk, SizeOk;
    var t' := Renamed(t, d, i, e);
    if k == e.first && e.first != 0 {
      assert EntryAt(t', d, |t.dirs[d]|);
      assert RefOk(geo, t, k);
    } else {
      assert RefOk(geo, t, k);
      assert t.refs[k] != (d, i);
      assert EntryAt(t', t.refs[k].0, t.refs[k].1);
    }
  }

  /** One more cluster for a directory: its own entry in the parent records the new length. */
  function Grown(geo: Geo, t: Tree, d: nat, c: nat): Tree
    requires d in t.own
  {
    var t1 := t.(own := t.own[d := t.own[d].(chain := t.own[d].chain + [c])],
                 at := t.at[c := (d, |t.own[d].chain|)]);
    if d in t.refs && EntryAt(t, t.refs[d].0, t.refs[d].1) then
      var (p, i) := t.refs[d];
      var e := EntAt(t, p, i);
      t1.(dirs := t.dirs[p := t.dirs[p][i := Some(e.(size := (e.size + geo.ClusBytes()) % TWO32))]])
    else t1
  }

  lemma {:induction false} SizeGrown(geo: Geo, e: Entry, o: Owner, c: nat)
    requires SizeOk(geo, e, o) && e.isDir
    ensures SizeOk(geo, e.(size := (e.size + geo.ClusBytes()) % TWO32), o.(chain := o.chain + [c]))
  {
    AddMod(|o.chain| * geo.ClusBytes(), geo.ClusBytes(), TWO32);
    assert (|o.chain| + 1) * geo.ClusBytes() == |o.chain| * geo.ClusBytes() + geo.ClusBytes();
  }

  lemma {:induction false} GrowEntry(geo: Geo, t: Tree, d: nat, c: nat, d': nat, j: nat)
    requires d in t.own && d in t.dirs && d != 0
    requires d in t.refs ==> RefOk(geo, t, d)
    requires EntryAt(t, d', j) && EntryOk(geo, t, d', j)
    ensures EntryAt(Grown(geo, t, d, c), d', j) && EntryOk(geo, Grown(geo, t, d, c), d', j)
  {
    var e := EntAt(t, d', j);
    if e.first == d {
      SizeGrown(geo, e, t.own[d], c);
    }
    hide SizeOk;
  }

  lemma {:induction false} GrowRef(geo: Geo, t: Tree, d: nat, c: nat, k: nat)
    requires d in t.own && k in t.refs && RefOk(geo, t, k)
    requires d in t.refs ==> RefOk(geo, t, d)
    ensures k in Grown(geo, t, d, c).refs && RefOk(geo, Grown(geo, t, d, c), k)
  {
  }

  lemma {:induction false} GrowShape(geo: Geo, t: Tree, d: nat, c: nat)
    requires d in t.own && d in t.dirs && (d in t.refs ==> RefOk(geo, t, d))
    ensures
      var t' := Grown(geo, t, d, c);
      && t'.dirs.Keys == t.dirs.Keys && t'.own.Keys == t.own.Keys && t'.depth == t.depth
      && t'.refs == t.refs && t'.loose == t.loose
      && (forall k <- t.own :: t'.own[k].contig == t.own[k].contig)
      && (forall k, i :: EntryAt(t', k, i) <==> EntryAt(t, k, i))
  {
  }

  /** A directory that gains a cluster keeps every owner named exactly once, and its recorded
      length in step with its allocation. */
  lemma {:induction false} GrowKeepsRefs(geo: Geo, t: Tree, d: nat, c: nat)
    requires RefsOk(geo, t) && d in t.dirs
    ensures d in t.own && RefsOk(geo, Grown(geo, t, d, c))
  {
    GrowShape(geo, t, d, c);
    var t' := Grown(geo, t, d, c);
    forall d', j | EntryAt(t', d', j)
      ensures EntryOk(geo, t', d', j)
    {
      assert EntryAt(t, d', j);
      GrowEntry(geo, t, d, c, d', j);
    }
    forall k | k in t'.refs
      ensures RefOk(geo, t', k)
    {
      GrowRef(geo, t, d, c, k);
    }
    hide EntryOk, RefOk, Grown;
  }

  /** A stream's first cluster. */
  function LooseAdded(t: Tree, c: nat): Tree {
    t.(own := t.own[c := Owner([c], false)], at := t.at[c := (c, 0)], loose := t.loose + {c})
  }

  lemma {:induction false} LooseAddKeepsRefs(geo: Geo, t: Tree, c: nat)
    requires RefsOk(geo, t) && c !in t.own && c != 0
    ensures RefsOk(geo, LooseAdded(t, c))
  {
    var t' := LooseAdded(t, c);
    forall d', j | EntryAt(t', d', j)
      ensures EntryOk(geo, t', d', j)
    {
      assert EntryAt(t, d', j) && EntryOk(geo, t, d', j);
    }
    forall k | k in t'.refs
      ensures RefOk(geo, t', k)
    {
      assert RefOk(geo, t, k);
      assert EntryAt(t', t.refs[k].0, t.refs[k].1);
    }
    hide EntryOk, RefOk;
  }

  /** A stream's next cluster. */
  function LooseExtended(t: Tree, k: nat, c: nat): Tree
    requires k in t.own
  {
    t.(own := t.own[k := t.own[k].(chain := t.own[k].chain + [c])], at := t.at[c := (k, |t.own[k].chain|)])
  }

  lemma {:induction false} LooseExtendKeepsRefs(geo: Geo, t: Tree, k: nat, c: nat)
    requires RefsOk(geo, t) && k in t.loose
    ensures k in t.own && RefsOk(geo, LooseExtended(t, k, c))
  {
    var t' := LooseExtended(t, k, c);
    forall d', j | EntryAt(t', d', j)
      ensures EntryOk(geo, t', d', j)
    {
      hide RefsOk, EntryOk;
      LooseExtendEntry(geo, t, k, c, d', j);
    }
    hide EntryOk, LooseExtended, EntriesOk;
    forall l | l in t'.refs
      ensures RefOk(geo, t', l)
    {
      LooseExtendRef(geo, t, k, c, l);
    }
    LooseExtendShape(t, k, c);
    hide RefOk;
  }

  lemma {:induction false} LooseExtendShape(t: Tree, k: nat, c: nat)
    requires k in t.own
    ensures
      var t' := LooseExtended(t, k, c);
      && t'.dirs == t.dirs && t'.own.Keys == t.own.Keys && t'.depth == t.depth && t'.refs == t.refs
        && t'.loose == t.loose
      && forall l <- t.own :: t'.own[l].contig == t.own[l].contig
  {
  }

  lemma {:induction false} LooseExtendEntry(geo: Geo, t: Tree, k: nat, c: nat, d': nat, j: nat)
    requires RefsOk(geo, t) && k in t.loose && k in t.own && EntryAt(LooseExtended(t, k, c), d', j)
    ensures EntryOk(geo, LooseExtended(t, k, c), d', j)
  {
    hide SizeOk, EntriesOk;
    assert EntryAt(t, d', j) && EntryOk(geo, t, d', j) by { RefsEntry(geo, t, d', j); }
    var f := EntAt(t, d', j).first;
    assert f != 0 ==> RefOk(geo, t, f);
  }

  lemma {:induction false} LooseExtendRef(geo: Geo, t: Tree, k: nat, c: nat, l: nat)
    requires RefsOk(geo, t) && k in t.own && l in t.refs
    ensures RefOk(geo, LooseExtended(t, k, c), l)
  {
    hide EntriesOk;
    assert RefOk(geo, t, l);
    assert EntryAt(LooseExtended(t, k, c), t.refs[l].0, t.refs[l].1);
  }

  /** An abandoned stream. */
  function LooseDropped(t: Tree, k: nat): Tree
    requires k in t.own
  {
    t.(own := t.own - {k}, at := t.at - (set c | c in t.own[k].chain), loose := t.loose - {k})
  }

  lemma {:induction false} LooseDropKeepsRefs(geo: Geo, t: Tree, k: nat)
    requires RefsOk(geo, t) && k in t.loose && k !in t.dirs
    ensures k in t.own && RefsOk(geo, LooseDropped(t, k))
  {
    var t' := LooseDropped(t, k);
    forall d', j | EntryAt(t', d', j)
      ensures EntryOk(geo, t', d', j)
    {
      assert EntryAt(t, d', j) && EntryOk(geo, t, d', j);
      assert EntAt(t, d', j).first != 0 ==> RefOk(geo, t, EntAt(t, d', j).first);
      hide SizeOk, RefsOk;
    }
    forall l | l in t'.refs
      ensures RefOk(geo, t', l)
    {
      assert RefOk(geo, t, l);
      assert EntryAt(t', t.refs[l].0, t.refs[l].1);
    }
    hide EntryOk, RefOk;
  }

  /** A directory being made: a loose owner with no entries yet. */
  function LooseDir(t: Tree, c: nat): Tree {
    LooseAdded(t, c).(dirs := t.dirs[c := []], depth := t.depth[c := 0])
  }

  lemma {:induction false} LooseDirEntries(geo: Geo, t: Tree, c: nat, d': nat, j: nat)
    requires RefsOk(geo, t) && c !in t.own && c != 0 && EntryAt(LooseDir(t, c), d', j)
    ensures EntryAt(t, d', j) && EntryOk(geo, LooseDir(t, c), d', j)
  {
    assert EntryAt(t, d', j) && EntryOk(geo, t, d', j);
    hide SizeOk, RefsOk;
  }

  lemma {:induction false} LooseDirKeepsRefs(geo: Geo, t: Tree, c: nat)
    requires RefsOk(geo, t) && c !in t.own && c != 0
    ensures RefsOk(geo, LooseDir(t, c))
  {
    var t' := LooseDir(t, c);
    forall d', j | EntryAt(t', d', j)
      ensures EntryOk(geo, t', d', j)
    {
      hide RefsOk, EntryOk, LooseDir;
      LooseDirEntries(geo, t, c, d', j);
    }
    hide EntryOk, EntriesOk;
    forall k | k in t'.refs
      ensures RefOk(geo, t', k)
    {
      LooseDirRef(geo, t, c, k);
    }
    hide RefOk;
  }

  lemma {:induction false} LooseDirRef(geo: Geo, t: Tree, c: nat, k: nat)
    requires RefsOk(geo, t) && c !in t.own && k in t.refs
    ensures RefOk(geo, LooseDir(t, c), k)
  {
    hide EntriesOk;
    assert RefOk(geo, t, k);
    assert EntryAt(LooseDir(t, c), t.refs[k].0, t.refs[k].1);
  }

  // ---- Names that an operation does not touch keep their meaning ----------------

  /** The same entry, up to the recorded length of a directory. */
  predicate Similar(a: Option<Entry>, b: Option<Entry>) {
    && (a.Some? <==> b.Some?)
    && (a.Some? ==> a.value == b.value || (a.value.isDir && b.value == a.value.(size := b.value.size)))
  }

  predicate SimilarDir(dir: Dir, dir': Dir, skip: nat) {
    && |dir| <= |dir'|
    && (forall j :: 0 <= j < |dir| && j != skip ==> Similar(dir[j], dir'[j]))
    && (skip < |dir| ==> dir'[skip] == None || Similar(dir[skip], dir'[skip]))
  }

  /** Every entry of t other than item i of directory d is still there in t'. */
  ghost predicate KeptExcept(t: Tree, t': Tree, d: nat, i: nat) {
    forall k <- t.dirs ::
      if k in t'.dirs then SimilarDir(t.dirs[k], t'.dirs[k], if k == d then i else |t.dirs[k]|)
      else EntryAt(t, d, i) && EntAt(t, d, i).first == k
  }

  lemma {:induction false} FindKept(dir: Dir, dir': Dir, skip: nat, want: Name)
    requires SimilarDir(dir, dir', skip) && Find(dir, want) < |dir| && Find(dir, want) != skip
    ensures Find(dir', want) == Find(dir, want)
  {
    var i := Find(dir, want);
    assert Similar(dir[i], dir'[i]);
    forall j | 0 <= j < i
      ensures !Matches(dir'[j], want)
    {
      assert !Matches(dir[j], want);
    }
    FindIs(dir', want, i);
  }

  lemma {:induction false} FindIs(dir: Dir, want: Name, i: nat)
    requires i <= |dir| && (i < |dir| ==> Matches(dir[i], want))
    requires forall j :: 0 <= j < i ==> !Matches(dir[j], want)
    ensures Find(dir, want) == i
  {
    if Find(dir, want) < i {
      assert Matches(dir[Find(dir, want)], want);
    }
  }

  /** A path that neither names nor passes through the retired entry keeps naming the same entry. */
  lemma {:induction false} ResolveKept(geo: Geo, t: Tree, t': Tree, d: nat, i: nat, path: Path)
    requires RefsOk(geo, t) && RefsOk(geo, t') && KeptExcept(t, t', d, i)
    requires forall n :: 0 < n <= |path| ==> Resolve(geo, t, path[..n]) != Some((d, i))
    requires Resolve(geo, t, path).Some?
    ensures Resolve(geo, t', path) == Resolve(geo, t, path)
    ensures var (a, b) := Resolve(geo, t, path).value; Similar(t.dirs[a][b], t'.dirs[a][b])
    decreases |path|
  {
    hide RefsOk, EntryOk;
    var (a, b) := Resolve(geo, t, path).value;
    var up := path[..|path| - 1];
    assert path[..|path|] == path;
    if up != [] {
      forall n | 0 < n <= |up|
        ensures Resolve(geo, t, up[..n]) != Some((d, i))
      {
        assert up[..n] == path[..n];
      }
      ResolveKept(geo, t, t', d, i, up);
    }
    assert ResolveDir(geo, t', up) == Some(a);
    FindKept(t.dirs[a], t'.dirs[a], if a == d then i else |t.dirs[a]|, path[|path| - 1]);
  }

}
