/** Deleting a directory with everything below it, one leaf at a time. */
module ExfatSubtree {
  import opened Arith
  import opened Bytes
  import opened ExfatNames
  import opened ExfatEntrySet
  import opened ExfatScan
  import opened ExfatSpace
  import opened ExfatHeap
  import opened ExfatTree
  import opened ExfatLayout
  import opened ExfatGrow
  import opened ExfatAppend
  import opened ExfatOps
  import opened ExfatStream
  import opened ExfatRemove
  import opened ExfatContents
  import opened ExfatTheorems
  import opened ExfatTarget

  /** Passes the driver makes before it gives up. */
  const MAX_PASSES: nat := 4096
  /** Size of its path buffer, terminator included. */
  const TREE_PATH: nat := 300

  /** Directory d is directory k or lies below it. */
  function Inside(t: Tree, k: nat, d: nat): bool
    decreases if d in t.depth then t.depth[d] else 0
  {
    || d == k
    || (&& d in t.refs && d in t.depth && t.refs[d].0 in t.depth && t.depth[t.refs[d].0] < t.depth[d]
        && Inside(t, k, t.refs[d].0))
  }

  /** Owner o is directory k or is named by an entry below it. */
  predicate Under(t: Tree, k: nat, o: nat) {
    o == k || (o in t.refs && Inside(t, k, t.refs[o].0))
  }

  /** All entries below directory k. */
  function SubEntries(t: Tree, k: nat): set<(nat, nat)> {
    set d, i | d in t.dirs && 0 <= i < |t.dirs[d]| && t.dirs[d][i].Some? && Inside(t, k, d) :: (d, i)
  }

  /** Entry i of directory d can be deleted on its own. */
  predicate Leaf(t: Tree, d: nat, i: nat) {
    && EntryAt(t, d, i)
    && (EntAt(t, d, i).isDir ==> EntAt(t, d, i).first in t.dirs && NoEntries(t.dirs[EntAt(t, d, i).first]))
  }

  lemma {:induction false} DetachedRefs(t: Tree, d: nat, i: nat)
    requires EntryAt(t, d, i)
    ensures
      var f, t' := EntAt(t, d, i).first, Detached(t, d, i);
      && (forall x <- t'.refs :: x in t.refs && t'.refs[x] == t.refs[x])
      && (forall x <- t.refs :: x != f ==> x in t'.refs)
      && (forall x <- t'.depth :: x in t.depth && t'.depth[x] == t.depth[x])
      && (forall x <- t.depth :: x != f ==> x in t'.depth)
  {
  }

  /** The parent of a named owner is never the deleted leaf. */
  lemma {:induction false} ParentNotLeaf(geo: Geo, t: Tree, d: nat, i: nat, x: nat)
    requires RefsOk(geo, t) && Leaf(t, d, i) && x in t.refs
    ensures t.refs[x].0 in t.dirs && t.refs[x].0 != EntAt(t, d, i).first
  {
    hide EntriesOk;
    assert RefOk(geo, t, x);
    var f := EntAt(t, d, i).first;
    if t.refs[x].0 == f {
      RefsEntry(geo, t, d, i);
      hide RefsOk;
    }
  }

  /** Deleting a leaf changes the ancestry of no other directory. */
  lemma {:induction false} InsideKept(geo: Geo, t: Tree, d: nat, i: nat, k: nat, x: nat)
    requires RefsOk(geo, t) && Leaf(t, d, i) && x != EntAt(t, d, i).first
    ensures Inside(Detached(t, d, i), k, x) == Inside(t, k, x)
    decreases if x in t.depth then t.depth[x] else 0
  {
    DetachedRefs(t, d, i);
    hide RefsOk, Leaf, Detached;
    if x in t.refs {
      ParentNotLeaf(geo, t, d, i, x);
      if x in t.depth && t.refs[x].0 in t.depth && t.depth[t.refs[x].0] < t.depth[x] {
        InsideKept(geo, t, d, i, k, t.refs[x].0);
      }
    }
  }

  /** ... and takes exactly one entry out of the subtree. */
  lemma {:induction false} SubEntriesShrink(geo: Geo, t: Tree, d: nat, i: nat, k: nat)
    requires RefsOk(geo, t) && Leaf(t, d, i) && Inside(t, k, d) && EntAt(t, d, i).first != d && 0 !in t.own
    ensures (d, i) in SubEntries(t, k)
    ensures SubEntries(Detached(t, d, i), k) == SubEntries(t, k) - {(d, i)}
  {
    var f, t' := EntAt(t, d, i).first, Detached(t, d, i);
    forall x: nat, j: nat | EntryAt(t', x, j) || EntryAt(t, x, j)
      ensures (EntryAt(t', x, j) && Inside(t', k, x)) <==> (EntryAt(t, x, j) && Inside(t, k, x) && (x, j) != (d, i))
    {
      LeafEntries(geo, t, d, i, x, j);
      if x != f {
        InsideKept(geo, t, d, i, k, x);
      }
    }
    hide RefsOk, Inside, Detached, Leaf;
    SubEntriesBy(t, t', k, d, i);
  }

  lemma {:induction false} LeafEntries(geo: Geo, t: Tree, d: nat, i: nat, x: nat, j: nat)
    requires RefsOk(geo, t) && Leaf(t, d, i)
    ensures EntryAt(Detached(t, d, i), x, j) <==> EntryAt(t, x, j) && (x, j) != (d, i)
    ensures EntryAt(t, x, j) ==> x != EntAt(t, d, i).first
  {
    RefsEntry(geo, t, d, i);
    if EntAt(t, d, i).first in t.dirs {
      hide EntriesOk;
      assert EntAt(t, d, i).first != 0;
    }
    hide RefsOk;
  }

  lemma {:induction false} SubEntriesBy(t: Tree, t': Tree, k: nat, d: nat, i: nat)
    requires EntryAt(t, d, i) && Inside(t, k, d)
    requires forall x: nat, j: nat :: EntryAt(t', x, j) || EntryAt(t, x, j) ==>
      ((EntryAt(t', x, j) && Inside(t', k, x)) <==> (EntryAt(t, x, j) && Inside(t, k, x) && (x, j) != (d, i)))
    ensures (d, i) in SubEntries(t, k)
    ensures SubEntries(t', k) == SubEntries(t, k) - {(d, i)}
  {
    hide Inside;
    forall p: (nat, nat)
      ensures p in SubEntries(t', k) <==> p in SubEntries(t, k) - {(d, i)}
    {
      assert p in SubEntries(t', k) <==> EntryAt(t', p.0, p.1) && Inside(t', k, p.0);
      assert p in SubEntries(t, k) <==> EntryAt(t, p.0, p.1) && Inside(t, k, p.0);
    }
  }

  // ---- A subtree part of which is gone ---------------------------------------------------

  /** t is t0 with some owners below directory k gone, and their entries retired. */
  ghost predicate Pruned(t0: Tree, t: Tree, k: nat) {
    && k in t.dirs && k in t.own && t.loose == t0.loose && t.orphans == t0.orphans
    && (forall o <- t.own :: o in t0.own && t.own[o] == t0.own[o])
    && (forall o <- t0.own :: o !in t.own ==> o != k && Under(t0, k, o))
    && (forall d <- t.dirs :: d in t0.dirs && d in t0.own && |t.dirs[d]| == |t0.dirs[d]|)
    && (forall d, j :: EntryAt(t, d, j) ==> EntryAt(t0, d, j) && EntAt(t, d, j) == EntAt(t0, d, j))
    && (forall d <- t0.dirs :: !Inside(t0, k, d) ==> d in t.dirs && t.dirs[d] == t0.dirs[d])
    && (forall x <- t.refs :: x in t0.refs && t.refs[x] == t0.refs[x])
    && (forall x <- t.own :: x in t0.refs ==> x in t.refs)
    && (forall x <- t.dirs :: Inside(t, k, x) == Inside(t0, k, x))
    && SubEntries(t, k) <= SubEntries(t0, k)
  }

  lemma {:induction false} PrunedRefl(geo: Geo, t: Tree, k: nat)
    requires RefsOk(geo, t) && k in t.dirs
    ensures Pruned(t, t, k)
  {
    hide EntriesOk, Inside, RefOk;
  }

  /** A directory is not below its own entries. */
  lemma {:induction false} InsideDepth(t: Tree, k: nat, d: nat)
    requires Inside(t, k, d) && k in t.depth && d in t.depth
    ensures t.depth[k] <= t.depth[d]
    decreases t.depth[d]
  {
    if d != k {
      InsideDepth(t, k, t.refs[d].0);
    }
  }

  lemma {:induction false} NotTop(geo: Geo, t: Tree, d: nat, i: nat, k: nat)
    requires RefsOk(geo, t) && EntryAt(t, d, i) && Inside(t, k, d) && k in t.dirs
    ensures EntAt(t, d, i).first != k
  {
    hide EntriesOk, RefOk, Inside;
    if EntAt(t, d, i).first == k {
      DirEntry(geo, t, d, i, k);
      ChildDeeper(geo, t, d, i);
      InsideDepth(t, k, d);
    }
  }

  lemma {:induction false} DirEntry(geo: Geo, t: Tree, d: nat, i: nat, k: nat)
    requires RefsOk(geo, t) && EntryAt(t, d, i) && EntAt(t, d, i).first == k && k in t.dirs
    ensures EntAt(t, d, i).isDir
  {
    RefsEntry(geo, t, d, i);
    DirOwned(geo, t, k);
    hide RefsOk, SizeOk;
  }

  lemma {:induction false} DirOwned(geo: Geo, t: Tree, k: nat)
    requires RefsOk(geo, t) && k in t.dirs
    ensures k in t.own && k != 0 && k in t.depth
  {
    hide EntriesOk, RefOk;
  }

  lemma {:induction false} ChildDeeper(geo: Geo, t: Tree, d: nat, i: nat)
    requires RefsOk(geo, t) && EntryAt(t, d, i) && EntAt(t, d, i).isDir
    ensures
      var f := EntAt(t, d, i).first;
      d in t.depth && f in t.depth && t.depth[d] < t.depth[f] && f in t.refs && t.refs[f] == (d, i)
  {
    ChildRef(geo, t, d, i);
    hide EntriesOk;
    assert RefOk(geo, t, EntAt(t, d, i).first);
  }

  lemma {:induction false} LeafRef(geo: Geo, t: Tree, d: nat, i: nat)
    requires RefsOk(geo, t) && EntryAt(t, d, i) && EntAt(t, d, i).first in t.own
    ensures EntAt(t, d, i).first in t.refs && t.refs[EntAt(t, d, i).first] == (d, i) && EntAt(t, d, i).first !in t.loose
  {
    RefsEntry(geo, t, d, i);
    hide EntriesOk;
    if EntAt(t, d, i).first != 0 {
      assert RefOk(geo, t, EntAt(t, d, i).first);
    }
  }

  /** One more leaf gone. */
  lemma {:induction false} PrunedStep(geo: Geo, t0: Tree, t: Tree, k: nat, d: nat, i: nat)
    requires Pruned(t0, t, k) && RefsOk(geo, t) && Leaf(t, d, i) && Inside(t, k, d)
    ensures EntryAt(t, d, i) && Pruned(t0, Detached(t, d, i), k)
    ensures |SubEntries(Detached(t, d, i), k)| == |SubEntries(t, k)| - 1
  {
    hide RefsOk, Inside, Leaf, Pruned, Detached, SubEntries;
    LeafIsEntry(t, d, i);
    NotTop2(geo, t0, t, d, i, k);
    NotOwnChild(geo, t, d, i);
    NoOwnerZero(geo, t);
    SubEntriesShrink(geo, t, d, i, k);
    PrunedOwners(geo, t0, t, k, d, i);
    PrunedDirs(geo, t0, t, k, d, i);
    PrunedIntro(t0, Detached(t, d, i), k);
  }

  lemma {:induction false} LeafIsEntry(t: Tree, d: nat, i: nat)
    requires Leaf(t, d, i)
    ensures EntryAt(t, d, i)
  {
  }

  lemma {:induction false} NotTop2(geo: Geo, t0: Tree, t: Tree, d: nat, i: nat, k: nat)
    requires Pruned(t0, t, k) && RefsOk(geo, t) && EntryAt(t, d, i) && Inside(t, k, d)
    ensures EntAt(t, d, i).first != k && k in t.dirs && k in t.own
  {
    hide RefsOk, Inside, SubEntries;
    NotTop(geo, t, d, i, k);
  }

  /** The owner half of Pruned. */
  ghost predicate OwnersPruned(t0: Tree, t: Tree, k: nat) {
    && k in t.own && t.loose == t0.loose && t.orphans == t0.orphans
    && (forall o <- t.own :: o in t0.own && t.own[o] == t0.own[o])
    && (forall o <- t0.own :: o !in t.own ==> o != k && Under(t0, k, o))
    && (forall x <- t.refs :: x in t0.refs && t.refs[x] == t0.refs[x])
    && (forall x <- t.own :: x in t0.refs ==> x in t.refs)
  }

  ghost predicate DirsPruned(t0: Tree, t: Tree, k: nat) {
    && k in t.dirs
    && (forall d <- t.dirs :: d in t0.dirs && d in t0.own && |t.dirs[d]| == |t0.dirs[d]|)
    && (forall d, j :: EntryAt(t, d, j) ==> EntryAt(t0, d, j) && EntAt(t, d, j) == EntAt(t0, d, j))
    && (forall d <- t0.dirs :: !Inside(t0, k, d) ==> d in t.dirs && t.dirs[d] == t0.dirs[d])
    && (forall x <- t.dirs :: Inside(t, k, x) == Inside(t0, k, x))
    && SubEntries(t, k) <= SubEntries(t0, k)
  }

  lemma {:induction false} PrunedIntro(t0: Tree, t: Tree, k: nat)
    requires OwnersPruned(t0, t, k) && DirsPruned(t0, t, k)
    ensures Pruned(t0, t, k)
  {
    hide Inside, SubEntries, Under;
  }

  lemma {:induction false} PrunedOwners(geo: Geo, t0: Tree, t: Tree, k: nat, d: nat, i: nat)
    requires Pruned(t0, t, k) && RefsOk(geo, t) && EntryAt(t, d, i) && Inside(t, k, d)
    requires EntAt(t, d, i).first != k && EntAt(t, d, i).first != d && 0 !in t.own
    ensures OwnersPruned(t0, Detached(t, d, i), k)
  {
    hide RefsOk, Inside, SubEntries;
    var f := EntAt(t, d, i).first;
    if f in t.own {
      LeafRef(geo, t, d, i);
    }
    DetachedRefs(t, d, i);
    DetachedParts(t, d, i);
    hide Detached;
  }

  lemma {:induction false} PrunedDirs(geo: Geo, t0: Tree, t: Tree, k: nat, d: nat, i: nat)
    requires Pruned(t0, t, k) && RefsOk(geo, t) && Leaf(t, d, i) && Inside(t, k, d)
    requires EntAt(t, d, i).first != k && EntAt(t, d, i).first != d && 0 !in t.own
    requires SubEntries(Detached(t, d, i), k) == SubEntries(t, k) - {(d, i)}
    ensures DirsPruned(t0, Detached(t, d, i), k)
  {
    hide RefsOk, Inside, SubEntries, Detached;
    var f, t' := EntAt(t, d, i).first, Detached(t, d, i);
    DetachedParts(t, d, i);
    DetachedKeys2(t, d, i);
    if f in t.dirs {
      DirOwned(geo, t, f);
    }
    forall x | x in t'.dirs
      ensures Inside(t', k, x) == Inside(t0, k, x)
    {
      InsideKept(geo, t, d, i, k, x);
    }
    forall x, j | EntryAt(t', x, j)
      ensures EntryAt(t, x, j) && EntAt(t', x, j) == EntAt(t, x, j)
    {
    }
    if f in t.dirs {
      LeafInside(geo, t, d, i, k);
    }
  }

  lemma {:induction false} LeafInside(geo: Geo, t: Tree, d: nat, i: nat, k: nat)
    requires RefsOk(geo, t) && EntryAt(t, d, i) && Inside(t, k, d) && EntAt(t, d, i).first in t.dirs
    ensures Inside(t, k, EntAt(t, d, i).first)
  {
    hide RefsOk;
    DirEntry(geo, t, d, i, EntAt(t, d, i).first);
    ChildDeeper(geo, t, d, i);
  }

  lemma {:induction false} DetachedKeys2(t: Tree, d: nat, i: nat)
    requires EntryAt(t, d, i)
    ensures
      var f, t' := EntAt(t, d, i).first, Detached(t, d, i);
      && (forall x <- t.dirs :: x != f ==> x in t'.dirs)
      && (forall x <- t'.dirs :: x in t.dirs && (f in t.own && f != 0 ==> x != f))
  {
  }

  /** When the top directory is empty nothing is left below it. */
  lemma {:induction false} NothingBelow(geo: Geo, t: Tree, k: nat, x: nat)
    requires RefsOk(geo, t) && k in t.dirs && NoEntries(t.dirs[k]) && x in t.dirs && Inside(t, k, x)
    ensures x == k
    decreases if x in t.depth then t.depth[x] else 0
  {
    hide EntriesOk;
    if x != k {
      assert RefOk(geo, t, x);
      var (p, j) := t.refs[x];
      assert EntryAt(t, p, j);
      NothingBelow(geo, t, k, p);
    }
  }

  lemma {:induction false} NoneUnder(geo: Geo, t0: Tree, t: Tree, k: nat, o: nat)
    requires Pruned(t0, t, k) && RefsOk(geo, t) && NoEntries(t.dirs[k]) && o in t.own && Under(t0, k, o)
    ensures o == k
  {
    hide RefsOk, Inside, SubEntries;
    if o != k {
      NamedAt(geo, t, o);
      NothingBelow(geo, t, k, t.refs[o].0);
    }
  }

  lemma {:induction false} NamedAt(geo: Geo, t: Tree, o: nat)
    requires RefsOk(geo, t) && o in t.refs
    ensures EntryAt(t, t.refs[o].0, t.refs[o].1)
  {
    hide EntriesOk;
    assert RefOk(geo, t, o);
  }

  /** A cluster that deleting everything below directory k one by one does not reach. */
  ghost predicate Lost(geo: Geo, t: Tree, k: nat, c: nat)
    requires geo.ClusBytes() > 0
  {
    exists d, i :: EntryAt(t, d, i) && Inside(t, k, d) && c in Left(geo, t, EntAt(t, d, i))
  }

  /** A whole subtree deleted: its owners are gone and their clusters free, except those that no deletion
      reaches, which stay marked without a name; its entry is retired; every other directory is as it was,
      and every other owner has the clusters it had. */
  ghost predicate TreeGone(geo: Geo, x0: Disk, t0: Tree, x: Disk, t: Tree, d: nat, i: nat)
    requires EntryAt(t0, d, i)
  {
    var k := EntAt(t0, d, i).first;
    && OwnersLeft(t0, t, k) && geo.ClusBytes() > 0 && BitsLeft(geo, x0, t0, x, k) && OrphansLeft(geo, t0, t, k)
    && d in t.dirs && t.dirs[d] == t0.dirs[d][i := None]
    && forall d' <- t0.dirs ::
         if Inside(t0, k, d') then d' !in t.dirs else d' in t.dirs && (d' != d ==> t.dirs[d'] == t0.dirs[d'])
  }

  /** Owners lose their names exactly when clusters below directory k stay marked. */
  ghost predicate OrphansLeft(geo: Geo, t0: Tree, t: Tree, k: nat)
    requires geo.ClusBytes() > 0
  {
    t0.orphans <= t.orphans && (t.orphans == t0.orphans <==> forall c :: !Lost(geo, t0, k, c))
  }

  ghost predicate OwnersLeft(t0: Tree, t: Tree, k: nat) {
    && (forall o <- t0.own :: !Under(t0, k, o) ==> o in t.own && t.own[o] == t0.own[o])
    && (forall o <- t.own :: o in t.orphans || (o in t0.own && t.own[o] == t0.own[o] && !Under(t0, k, o)))
  }

  ghost predicate BitsLeft(geo: Geo, x0: Disk, t0: Tree, x: Disk, k: nat)
    requires geo.ClusBytes() > 0
  {
    && |x.bits| == |x0.bits| == geo.Total()
    && forall c :: 2 <= c < geo.Total() ==>
         (x.bits[c] <==> x0.bits[c] && (c in t0.at && Under(t0, k, t0.at[c].0) ==> Lost(geo, t0, k, c)))
  }

  ghost predicate OwnersGone(t0: Tree, t: Tree, k: nat) {
    && (forall o <- t0.own :: o in t.own <==> !Under(t0, k, o))
    && (forall o <- t.own :: o in t0.own && t.own[o] == t0.own[o])
  }

  ghost predicate BitsGone(geo: Geo, x0: Disk, t0: Tree, x: Disk, k: nat) {
    && |x.bits| == |x0.bits| == geo.Total()
    && forall c :: 2 <= c < geo.Total() ==>
         (x.bits[c] <==> x0.bits[c] && !(c in t0.at && Under(t0, k, t0.at[c].0)))
  }

  lemma {:induction false} OwnersToBits(geo: Geo, x0: Disk, t0: Tree, x: Disk, t: Tree, k: nat)
    requires SpaceOk(geo, x0, t0.own, t0.at) && SpaceOk(geo, x, t.own, t.at) && OwnersGone(t0, t, k)
    ensures BitsGone(geo, x0, t0, x, k)
  {
    hide Under, DiskOk, OwnersOk;
    SpaceDisk(geo, x0, t0.own, t0.at);
    SpaceDisk(geo, x, t.own, t.at);
    DiskSizes(geo, x0);
    DiskSizes(geo, x);
    forall c | 2 <= c < geo.Total()
      ensures c in t.at <==> c in t0.at && !Under(t0, k, t0.at[c].0)
    {
      if c in t.at {
        var (o, j) := t.at[c];
        assert t0.own[o].chain[j] == c;
      }
      if c in t0.at && !Under(t0, k, t0.at[c].0) {
        var (o, j) := t0.at[c];
        assert t.own[o].chain[j] == c;
      }
    }
    hide Placed, OwnersGone;
  }

  lemma {:induction false} DiskSizes(geo: Geo, x: Disk)
    requires DiskOk(geo, x)
    ensures |x.bits| == geo.Total()
  {
  }

  lemma {:induction false} TopOutside(geo: Geo, t: Tree, d: nat, i: nat)
    requires RefsOk(geo, t) && EntryAt(t, d, i) && EntAt(t, d, i).isDir
    ensures !Inside(t, EntAt(t, d, i).first, d)
  {
    hide RefsOk, Inside;
    ChildDeeper(geo, t, d, i);
    if Inside(t, EntAt(t, d, i).first, d) {
      InsideDepth(t, EntAt(t, d, i).first, d);
    }
  }

  lemma {:induction false} TopEntry(t0: Tree, t: Tree, k: nat, d: nat, i: nat)
    requires Pruned(t0, t, k) && EntryAt(t, d, i)
    ensures EntryAt(t0, d, i) && EntAt(t, d, i) == EntAt(t0, d, i)
  {
    hide Inside, SubEntries, Under;
  }

  lemma {:induction false} GoneOwners(geo: Geo, t0: Tree, t: Tree, k: nat, d: nat, i: nat)
    requires Pruned(t0, t, k) && RefsOk(geo, t) && Leaf(t, d, i) && EntAt(t, d, i).first == k && EntAt(t, d, i).isDir
    ensures OwnersGone(t0, Detached(t, d, i), k)
  {
    hide RefsOk, Inside, SubEntries, Detached, Under;
    DirOwned(geo, t, k);
    NotOwnChild(geo, t, d, i);
    DetachedParts(t, d, i);
    assert Under(t0, k, k) by { TopUnder(t0, k); }
    forall o | o in t.own && Under(t0, k, o)
      ensures o == k
    {
      NoneUnder(geo, t0, t, k, o);
    }
  }

  lemma {:induction false} TopUnder(t0: Tree, k: nat)
    ensures Under(t0, k, k)
  {
  }

  lemma {:induction false} GoneDirs(geo: Geo, t0: Tree, t: Tree, k: nat, d: nat, i: nat)
    requires Pruned(t0, t, k) && RefsOk(geo, t) && Leaf(t, d, i) && EntAt(t, d, i).first == k && EntAt(t, d, i).isDir
      && !Inside(t0, k, d)
    ensures
      var t' := Detached(t, d, i);
      && d in t'.dirs && d in t0.dirs && i < |t0.dirs[d]| && t'.dirs[d] == t0.dirs[d][i := None]
      && forall d' <- t0.dirs ::
           if Inside(t0, k, d') then d' !in t'.dirs else d' in t'.dirs && (d' != d ==> t'.dirs[d'] == t0.dirs[d'])
  {
    hide RefsOk, Inside, SubEntries, Detached, Under;
    DirOwned(geo, t, k);
    NotOwnChild(geo, t, d, i);
    DetachedParts(t, d, i);
    DetachedKeys2(t, d, i);
    TopInside(t0, k);
    forall x | x in t.dirs && Inside(t0, k, x)
      ensures x == k
    {
      NothingBelow(geo, t, k, x);
    }
  }

  lemma {:induction false} TopInside(t: Tree, k: nat)
    ensures Inside(t, k, k)
  {
  }

  /** Deleting a leaf below a directory leaves the path to that directory alone. */
  lemma {:induction false} TopPathKept(geo: Geo, t: Tree, t': Tree, path: Path, d: nat, i: nat, d': nat, i': nat)
    requires RefsOk(geo, t) && RefsOk(geo, t') && Resolve(geo, t, path) == Some((d, i)) && EntAt(t, d, i).isDir
    requires Leaf(t, d', i') && EntryAt(t, d', i') && t'.dirs == Detached(t, d', i').dirs
    requires Inside(t, EntAt(t, d, i).first, d')
    ensures Resolve(geo, t', path) == Some((d, i))
  {
    hide RefsOk, EntryOk, Inside, Detached, Leaf, KeptExcept, Resolve;
    ChildRef(geo, t, d, i);
    NotTop(geo, t, d', i', EntAt(t, d, i).first);
    DirsKeep(t, t', d', i');
    LeafMeans(t, d', i');
    forall n | 0 < n <= |path|
      ensures Resolve(geo, t, path[..n]) != Some((d', i'))
    {
      if n == |path| {
        assert path[..n] == path;
      } else {
        NotThrough(geo, t, path, n, d', i');
      }
    }
    ResolveKept(geo, t, t', d', i', path);
  }

  lemma {:induction false} LeafMeans(t: Tree, d: nat, i: nat)
    requires Leaf(t, d, i) && EntryAt(t, d, i)
    ensures EntAt(t, d, i).isDir ==> EntAt(t, d, i).first in t.dirs && NoEntries(t.dirs[EntAt(t, d, i).first])
  {
  }
}
