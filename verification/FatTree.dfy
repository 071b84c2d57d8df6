/** Which directory entry names which chain of a FAT volume, and how each operation changes that. */
module FatTree {
  import opened Bytes
  import opened FatNames
  import opened FatDir

  /** `heads` are the first clusters of all chains, `dirs` the directories by first cluster (0 is the FAT16
      root), `refs` the one entry that names a chain; `loose` chains are not named yet; `depth` orders
      directories below their parents. */
  datatype Tree = Tree(root: nat, heads: set<nat>, dirs: map<nat, seq<Slot>>, refs: map<nat, (nat, nat)>,
                       loose: set<nat>, depth: map<nat, nat>)

  const ONE_DOT: Name := [DOT]
  const TWO_DOTS: Name := [DOT, DOT]

  /** The names by which a directory lists itself and its parent. */
  predicate DotName(name: Name) { name == ONE_DOT || name == TWO_DOTS }

  /** Position i of directory d names a file or a directory. */
  predicate NamesAt(t: Tree, d: nat, i: nat) {
    d in t.dirs && EntryIn(t.dirs[d], i) && !DotSlot(t.dirs[d][i])
  }

  function ItemAt(t: Tree, d: nat, i: nat): Item
    requires NamesAt(t, d, i)
  {
    ItemOf(t.dirs[d][i])
  }

  predicate NameOk(t: Tree, d: nat, i: nat)
    requires NamesAt(t, d, i)
  {
    var it := ItemAt(t, d, i);
    if it.first == 0 then !it.isDir
    else it.first in t.heads && it.first in t.refs && t.refs[it.first] == (d, i) && (it.isDir <==> it.first in t.dirs)
  }

  /** What the double dot of directory d names: its parent, 0 for the root. */
  function Above(t: Tree, d: nat): nat { if d in t.refs && t.refs[d].0 != t.root then t.refs[d].0 else 0 }

  /** Dot entries come first; the single dot is the directory itself, the double dot its parent. */
  ghost predicate DotsOk(d: nat, up: nat, slots: seq<Slot>) {
    forall i: nat :: EntryIn(slots, i) && DotSlot(slots[i]) ==> DotOk(d, up, slots, i)
  }

  predicate DotOk(d: nat, up: nat, slots: seq<Slot>, i: nat)
    requires EntryIn(slots, i)
  {
    && DotName(Parse83(slots[i])) && i <= 1
    && ItemOf(slots[i]).isDir && ItemOf(slots[i]).first == if Parse83(slots[i]) == ONE_DOT then d else up
  }

  predicate RefOk(t: Tree, k: nat)
    requires k in t.refs
  {
    && k in t.heads && k != t.root && k != 0 && k !in t.loose
    && NamesAt(t, t.refs[k].0, t.refs[k].1) && ItemAt(t, t.refs[k].0, t.refs[k].1).first == k
    && (k in t.dirs ==> t.refs[k].0 in t.depth && k in t.depth && t.depth[t.refs[k].0] < t.depth[k])
  }

  ghost predicate NamesOk(t: Tree) { forall d: nat, i: nat :: NamesAt(t, d, i) ==> NameOk(t, d, i) }

  ghost predicate DirOk(t: Tree, d: nat)
    requires d in t.dirs
  {
    Tidy(t.dirs[d]) && DotsOk(d, Above(t, d), t.dirs[d]) && d in t.depth && (d == t.root || d in t.heads)
  }

  /** Every chain is the root's, loose, or named by exactly one live entry. */
  ghost predicate TreeOk(t: Tree) { HeadsOk(t) && DirsOk(t) && NamesOk(t) && RefsOk(t) }

  ghost predicate HeadsOk(t: Tree) {
    && t.root in t.dirs && (t.root == 0 || t.root in t.heads) && 0 !in t.heads
    && (forall k <- t.heads :: k == t.root || k in t.loose || k in t.refs)
    && t.loose <= t.heads && t.root !in t.loose && t.loose !! t.dirs.Keys
  }

  ghost predicate DirsOk(t: Tree) { forall d <- t.dirs :: DirOk(t, d) }

  ghost predicate RefsOk(t: Tree) { forall k <- t.refs :: RefOk(t, k) }

  lemma {:induction false} EntryNamed(t: Tree, d: nat, i: nat)
    requires TreeOk(t) && NamesAt(t, d, i)
    ensures NameOk(t, d, i)
    ensures ItemAt(t, d, i).first != 0 ==> RefOk(t, ItemAt(t, d, i).first) && ItemAt(t, d, i).first != d
  {
    hide Tidy, DotsOk, EntryIn;
    assert NameOk(t, d, i);
    var f := ItemAt(t, d, i).first;
    if f != 0 {
      assert RefOk(t, f);
    }
  }

  lemma {:induction false} DirFacts(t: Tree, d: nat)
    requires TreeOk(t) && d in t.dirs
    ensures Tidy(t.dirs[d]) && DotsOk(d, Above(t, d), t.dirs[d]) && d in t.depth && (d == t.root || d in t.heads)
      && d !in t.loose
  {
    hide Tidy, DotsOk, EntryIn, NamesOk, RefOk;
    assert DirOk(t, d);
  }

  lemma {:induction false} DirIn(t: Tree, d: nat)
    requires TreeOk(t) && d in t.dirs
    ensures DirOk(t, d)
  {
    hide Tidy, DotsOk, EntryIn, NamesOk, RefOk;
  }

  lemma {:induction false} RefKept(t: Tree, r: nat)
    requires TreeOk(t) && r in t.refs
    ensures RefOk(t, r)
  {
    hide Tidy, DotsOk, EntryIn, NamesOk, DirOk;
  }

  lemma {:induction false} LooseHead(t: Tree, c: nat)
    requires TreeOk(t) && c in t.loose
    ensures c in t.heads && c != 0
  {
    hide DirOk, RefOk, NamesOk;
  }

  lemma {:induction false} HeadsIn(t: Tree)
    requires TreeOk(t)
    ensures HeadsOk(t)
  {
    hide HeadsOk, DirsOk, NamesOk, RefsOk;
  }

  lemma {:induction false} DirKept(t: Tree, t': Tree, d: nat)
    requires d in t.dirs && d in t'.dirs && DirOk(t, d) && t'.dirs[d] == t.dirs[d] && t'.root == t.root
      && Above(t', d) == Above(t, d)
    requires d in t'.depth && (d == t.root || d in t'.heads)
    ensures DirOk(t', d)
  {
    hide Tidy, DotsOk, Above;
  }

  // ---- Directories that change one entry --------------------------------------------------------

  lemma {:induction false} DotsAdded(d: nat, up: nat, a: seq<Slot>, b: seq<Slot>, e: nat)
    requires DotsOk(d, up, a) && AddedEntry(a, b, e) && e < |b| && !DotSlot(b[e])
    ensures DotsOk(d, up, b)
  {
    hide Tidy, EntryIn, DotName, Parse83, ItemOf;
    forall i: nat | EntryIn(b, i) && i < |b| && DotSlot(b[i])
      ensures DotOk(d, up, b, i)
    {
      assert SameEntry(a, b, i);
    }
    EntryRange(b);
  }

  lemma {:induction false} EntryRange(s: seq<Slot>)
    ensures forall i: nat :: EntryIn(s, i) ==> i < |s|
  {
  }

  lemma {:induction false} DotsRemoved(d: nat, up: nat, a: seq<Slot>, b: seq<Slot>, k: nat)
    requires DotsOk(d, up, a) && RemovedEntry(a, b, k)
    ensures DotsOk(d, up, b)
  {
    hide Tidy, EntryIn, DotName, Parse83, ItemOf;
    EntryRange(b);
    forall i: nat | EntryIn(b, i) && i < |b| && DotSlot(b[i])
      ensures DotOk(d, up, b, i)
    {
      assert SameEntry(a, b, i);
    }
  }

  lemma {:induction false} DotsMoved(d: nat, up: nat, a: seq<Slot>, b: seq<Slot>, k: nat, e: nat)
    requires DotsOk(d, up, a) && MovedEntry(a, b, k, e) && !DotSlot(a[k])
    ensures DotsOk(d, up, b)
  {
    hide Tidy, EntryIn, DotName, Parse83, ItemOf;
    EntryRange(b);
    forall i: nat | EntryIn(b, i) && i < |b| && DotSlot(b[i])
      ensures DotOk(d, up, b, i)
    {
      assert i != k && i != e;
      assert SameEntry(a, b, i);
    }
  }

  lemma {:induction false} DotsRewritten(d: nat, up: nat, a: seq<Slot>, k: nat, s: Slot)
    requires DotsOk(d, up, a) && EntryIn(a, k) && k < |a| && !DotSlot(a[k]) && EntryIn(a[k := s], k) && !DotSlot(s)
      && OthersSame(a, a[k := s], k)
    ensures DotsOk(d, up, a[k := s])
  {
    hide Tidy, EntryIn, DotName, Parse83, ItemOf;
    var b := a[k := s];
    EntryRange(b);
    forall i: nat | EntryIn(b, i) && i < |b| && DotSlot(b[i])
      ensures DotOk(d, up, b, i)
    {
      assert SameEntry(a, b, i);
    }
  }

  // ---- What the operations do to the tree ---------------------------------------------------------

  lemma {:induction false} TreeIntro(t: Tree)
    requires HeadsOk(t) && (forall d <- t.dirs :: DirOk(t, d)) && (forall k <- t.refs :: RefOk(t, k))
    requires forall d: nat, i: nat :: NamesAt(t, d, i) ==> NameOk(t, d, i)
    ensures TreeOk(t)
  {
    hide HeadsOk, DirOk, RefOk, NamesAt, NameOk;
  }

  /** An entry that names what it named, in a tree that has it. */
  lemma {:induction false} NameKept(t: Tree, t': Tree, d: nat, i: nat)
    requires NamesAt(t, d, i) && NamesAt(t', d, i) && ItemAt(t', d, i) == ItemAt(t, d, i) && NameOk(t, d, i)
    requires
      var k := ItemAt(t, d, i).first;
      k != 0 && k in t.refs ==>
        && k in t'.heads && k in t'.refs && t'.refs[k] == t.refs[k]
        && (k in t'.dirs <==> k in t.dirs)
    ensures NameOk(t', d, i)
  {
    hide ItemAt, NamesAt;
  }

  /** A chain that is named where it was named. */
  lemma {:induction false} RefSame(t: Tree, t': Tree, k: nat)
    requires k in t.refs && k in t'.refs && t'.refs[k] == t.refs[k] && RefOk(t, k)
    requires NamesAt(t', t.refs[k].0, t.refs[k].1)
      && ItemAt(t', t.refs[k].0, t.refs[k].1) == ItemAt(t, t.refs[k].0, t.refs[k].1)
    requires k in t'.heads && t'.root == t.root && k !in t'.loose
    requires k in t'.dirs ==>
      && k in t.dirs && k in t'.depth && t.refs[k].0 in t'.depth
      && (k in t.depth ==> t'.depth[k] == t.depth[k])
        && (t.refs[k].0 in t.depth ==> t'.depth[t.refs[k].0] == t.depth[t.refs[k].0])
    ensures RefOk(t', k)
  {
    hide ItemAt, NamesAt;
  }

  /** A chain that nothing names yet. */
  function LooseAdded(t: Tree, k: nat): Tree { t.(heads := t.heads + {k}, loose := t.loose + {k}) }

  function LooseDropped(t: Tree, k: nat): Tree { t.(heads := t.heads - {k}, loose := t.loose - {k}) }

  lemma {:induction false} LooseAddOk(t: Tree, k: nat)
    requires TreeOk(t) && k !in t.heads && k != 0 && k != t.root
    ensures TreeOk(LooseAdded(t, k))
  {
    LooseOk(t, LooseAdded(t, k), k);
  }

  lemma {:induction false} LooseDropOk(t: Tree, k: nat)
    requires TreeOk(t) && k in t.loose
    ensures TreeOk(LooseDropped(t, k))
  {
    HeadsIn(t);
    LooseOk(t, LooseDropped(t, k), k);
  }

  /** Only chain k, which has no name, comes or goes. */
  lemma {:induction false} LooseOk(t: Tree, t': Tree, k: nat)
    requires TreeOk(t) && t' == t.(heads := t'.heads, loose := t'.loose) && k != 0 && k != t.root
      && (k !in t.heads || k in t.loose)
    requires forall x :: x != k ==> (x in t'.heads <==> x in t.heads) && (x in t'.loose <==> x in t.loose)
    requires k in t'.heads <==> k in t'.loose
    ensures TreeOk(t')
  {
    hide Tidy, DotsOk, EntryIn, ItemOf, TreeOk;
    HeadsIn(t);
    forall d | d in t'.dirs
      ensures DirOk(t', d) && d !in t'.loose
    {
      DirIn(t, d);
      DirKept(t, t', d);
    }
    forall d: nat, i: nat | NamesAt(t', d, i)
      ensures NameOk(t', d, i)
    {
      EntryNamed(t, d, i);
      NameKept(t, t', d, i);
    }
    forall r | r in t'.refs
      ensures RefOk(t', r)
    {
      RefKept(t, r);
      RefSame(t, t', r);
    }
    TreeIntro(t');
  }

  /** The entry at position e of directory d names the loose chain k. */
  function FileAdded(t: Tree, d: nat, s: seq<Slot>, e: nat, k: nat): Tree {
    t.(dirs := t.dirs[d := s], refs := t.refs[k := (d, e)], loose := t.loose - {k})
  }

  /** Everything but the changed entry names what it named. */
  lemma {:induction false} NamesElsewhere(t: Tree, t': Tree, d: nat, s: seq<Slot>, d': nat, i: nat)
    requires d in t.dirs && d in t'.dirs && t'.dirs[d] == s
      && (d' in t'.dirs && d' != d ==> d' in t.dirs && t'.dirs[d'] == t.dirs[d'])
    requires d' == d ==> SameEntry(t.dirs[d], s, i)
    requires NamesAt(t', d', i)
    ensures NamesAt(t, d', i) && ItemAt(t, d', i) == ItemAt(t', d', i)
  {
    hide EntryIn, ItemOf;
    EntryRange(s);
  }

  lemma {:induction false} NamesStay(t: Tree, t': Tree, d: nat, s: seq<Slot>, d': nat, i: nat)
    requires d in t.dirs && d in t'.dirs && t'.dirs[d] == s && d' in t'.dirs
      && (d' != d ==> d' in t.dirs && t'.dirs[d'] == t.dirs[d'])
    requires d' == d ==> SameEntry(t.dirs[d], s, i)
    requires NamesAt(t, d', i)
    ensures NamesAt(t', d', i) && ItemAt(t', d', i) == ItemAt(t, d', i)
  {
    hide EntryIn, ItemOf;
    EntryRange(t.dirs[d]);
  }

  /** A new file. */
  lemma {:induction false} FileAddOk(t: Tree, d: nat, s: seq<Slot>, e: nat, k: nat)
    requires TreeOk(t) && d in t.dirs && AddedEntry(t.dirs[d], s, e) && e < |s| && !DotSlot(s[e])
    requires k in t.loose && ItemOf(s[e]).first == k && !ItemOf(s[e]).isDir
    ensures TreeOk(FileAdded(t, d, s, e, k))
  {
    hide Tidy, DotsOk, EntryIn, ItemOf, TreeOk, DirOk, RefOk, NamesAt, NameOk, Above;
    HeadsIn(t);
    DirFacts(t, d);
    DotsAdded(d, Above(t, d), t.dirs[d], s, e);
    var t' := FileAdded(t, d, s, e, k);
    forall d': nat, i: nat | NamesAt(t', d', i)
      ensures NameOk(t', d', i)
    {
      FileAddName(t, d, s, e, k, d', i);
    }
    forall x | x in t'.dirs
      ensures DirOk(t', x)
    {
      FileAddDir(t, d, s, e, k, x);
    }
    forall r | r in t'.refs
      ensures RefOk(t', r)
    {
      FileAddRef(t, d, s, e, k, r);
    }
    TreeIntro(t');
  }

  lemma {:induction false} FileAddName(t: Tree, d: nat, s: seq<Slot>, e: nat, k: nat, d': nat, i: nat)
    requires TreeOk(t) && d in t.dirs && AddedEntry(t.dirs[d], s, e) && e < |s|
    requires k in t.loose && ItemOf(s[e]).first == k && !ItemOf(s[e]).isDir
    requires NamesAt(FileAdded(t, d, s, e, k), d', i)
    ensures NameOk(FileAdded(t, d, s, e, k), d', i)
  {
    hide Tidy, DotsOk, EntryIn, ItemOf, TreeOk;
    HeadsIn(t);
    var t' := FileAdded(t, d, s, e, k);
    if d' != d || i != e {
      assert d' == d ==> SameEntry(t.dirs[d], s, i);
      NamesElsewhere(t, t', d, s, d', i);
      EntryNamed(t, d', i);
      NameKept(t, t', d', i);
    }
  }

  lemma {:induction false} FileAddDir(t: Tree, d: nat, s: seq<Slot>, e: nat, k: nat, x: nat)
    requires TreeOk(t) && d in t.dirs && Tidy(s) && DotsOk(d, Above(t, d), s) && k in t.loose
      && x in FileAdded(t, d, s, e, k).dirs
    ensures DirOk(FileAdded(t, d, s, e, k), x)
  {
    hide Tidy, DotsOk, TreeOk;
    HeadsIn(t);
    DirIn(t, d);
    DirIn(t, x);
    if x != d {
      DirKept(t, FileAdded(t, d, s, e, k), x);
    }
  }

  lemma {:induction false} FileAddRef(t: Tree, d: nat, s: seq<Slot>, e: nat, k: nat, r: nat)
    requires TreeOk(t) && d in t.dirs && AddedEntry(t.dirs[d], s, e) && e < |s| && !DotSlot(s[e])
    requires k in t.loose && ItemOf(s[e]).first == k && r in FileAdded(t, d, s, e, k).refs
    ensures RefOk(FileAdded(t, d, s, e, k), r)
  {
    hide Tidy, DotsOk, EntryIn, ItemOf, TreeOk;
    HeadsIn(t);
    var t' := FileAdded(t, d, s, e, k);
    if r != k {
      RefKept(t, r);
      var (p, j) := t.refs[r];
      assert p == d ==> SameEntry(t.dirs[d], s, j);
      NamesStay(t, t', d, s, p, j);
      RefSame(t, t', r);
    }
  }

  /** The entry at position e of directory d names the loose chain c, which holds the slots cs. */
  function DirAdded(t: Tree, d: nat, s: seq<Slot>, e: nat, c: nat, cs: seq<Slot>): Tree
    requires d in t.depth
  {
    t.(dirs := t.dirs[d := s][c := cs], refs := t.refs[c := (d, e)], loose := t.loose - {c},
      depth := t.depth[c := t.depth[d] + 1])
  }

  /** A directory with nothing but dot entries. */
  ghost predicate Bare(slots: seq<Slot>) { forall i: nat :: EntryIn(slots, i) ==> i < |slots| && DotSlot(slots[i]) }

  lemma {:induction false} BareNames(t: Tree, d: nat, i: nat)
    requires d in t.dirs && Bare(t.dirs[d])
    ensures !NamesAt(t, d, i)
  {
    hide EntryIn;
  }

  lemma {:induction false} MovedOther(a: seq<Slot>, b: seq<Slot>, k: nat, e: nat, j: nat)
    requires MovedEntry(a, b, k, e) && EntryIn(a, j) && j != k
    ensures j != e && SameEntry(a, b, j)
  {
    hide Tidy, EntryIn, ItemOf;
  }

  lemma {:induction false} DirAddName(t: Tree, d: nat, s: seq<Slot>, e: nat, c: nat, cs: seq<Slot>, d': nat, i: nat)
    requires TreeOk(t) && d in t.dirs && d in t.depth && AddedEntry(t.dirs[d], s, e) && e < |s|
    requires c in t.loose && c != d && c !in t.dirs && ItemOf(s[e]) == Item(c, ItemOf(s[e]).size, true) && Bare(cs)
    requires NamesAt(DirAdded(t, d, s, e, c, cs), d', i)
    ensures NameOk(DirAdded(t, d, s, e, c, cs), d', i)
  {
    hide Tidy, DotsOk, EntryIn, ItemOf, NamesOk, TreeOk, Bare;
    var t' := DirAdded(t, d, s, e, c, cs);
    BareNames(t', c, i);
    LooseHead(t, c);
    if d' != d || i != e {
      assert d' == d ==> SameEntry(t.dirs[d], s, i);
      NamesElsewhere(t, t', d, s, d', i);
      EntryNamed(t, d', i);
    }
  }

  /** A new directory. */
  lemma {:induction false} DirAddOk(t: Tree, d: nat, s: seq<Slot>, e: nat, c: nat, cs: seq<Slot>)
    requires TreeOk(t) && d in t.dirs && d in t.depth && AddedEntry(t.dirs[d], s, e) && e < |s| && !DotSlot(s[e])
    requires c in t.loose && c != d && ItemOf(s[e]).first == c && ItemOf(s[e]).isDir
    requires Bare(cs) && Tidy(cs) && DotsOk(c, if d == t.root then 0 else d, cs)
    ensures TreeOk(DirAdded(t, d, s, e, c, cs))
  {
    hide Tidy, DotsOk, EntryIn, ItemOf, TreeOk, DirOk, RefOk, NamesAt, NameOk, Above, Bare;
    HeadsIn(t);
    DirFacts(t, d);
    DotsAdded(d, Above(t, d), t.dirs[d], s, e);
    var t' := DirAdded(t, d, s, e, c, cs);
    forall d': nat, i: nat | NamesAt(t', d', i)
      ensures NameOk(t', d', i)
    {
      DirAddName(t, d, s, e, c, cs, d', i);
    }
    forall x | x in t'.dirs
      ensures DirOk(t', x)
    {
      DirAddDir(t, d, s, e, c, cs, x);
    }
    forall r | r in t'.refs
      ensures RefOk(t', r)
    {
      DirAddRef(t, d, s, e, c, cs, r);
    }
    TreeIntro(t');
  }

  lemma {:induction false} DirAddDir(t: Tree, d: nat, s: seq<Slot>, e: nat, c: nat, cs: seq<Slot>, x: nat)
    requires TreeOk(t) && d in t.dirs && d in t.depth && Tidy(s) && DotsOk(d, Above(t, d), s)
    requires c != d && c !in t.dirs && c in t.heads && Tidy(cs) && DotsOk(c, if d == t.root then 0 else d, cs)
    requires x in DirAdded(t, d, s, e, c, cs).dirs
    ensures DirOk(DirAdded(t, d, s, e, c, cs), x)
  {
    hide Tidy, DotsOk, TreeOk;
    var t' := DirAdded(t, d, s, e, c, cs);
    DirIn(t, d);
    if x != d && x != c {
      DirIn(t, x);
      DirKept(t, t', x);
    }
  }

  lemma {:induction false} DirAddRef(t: Tree, d: nat, s: seq<Slot>, e: nat, c: nat, cs: seq<Slot>, r: nat)
    requires TreeOk(t) && d in t.dirs && d in t.depth && AddedEntry(t.dirs[d], s, e) && e < |s| && !DotSlot(s[e])
    requires c in t.loose && c != d && c !in t.dirs && ItemOf(s[e]).first == c && r in DirAdded(t, d, s, e, c, cs).refs
    ensures RefOk(DirAdded(t, d, s, e, c, cs), r)
  {
    hide Tidy, DotsOk, EntryIn, ItemOf, TreeOk;
    HeadsIn(t);
    var t' := DirAdded(t, d, s, e, c, cs);
    if r != c {
      RefKept(t, r);
      var (p, j) := t.refs[r];
      assert p == d ==> SameEntry(t.dirs[d], s, j);
      NamesStay(t, t', d, s, p, j);
      RefSame(t, t', r);
    }
  }

  /** The entries of directory d name no chain. */
  predicate NoChains(t: Tree, d: nat)
    requires d in t.dirs
  {
    Unlinked(t.dirs[d])
  }

  /** No entry but the dots names a cluster. */
  predicate Unlinked(slots: seq<Slot>) {
    forall i: nat :: i < |slots| && EntryIn(slots, i) && !DotSlot(slots[i]) ==> ItemOf(slots[i]).first == 0
  }

  /** The entry at position i of directory d is gone, and the chain it named with it. */
  function Removed(t: Tree, d: nat, s: seq<Slot>, i: nat): Tree
    requires NamesAt(t, d, i)
  {
    var f := ItemAt(t, d, i).first;
    if f == 0 then t.(dirs := t.dirs[d := s])
    else t.(heads := t.heads - {f}, dirs := t.dirs[d := s] - {f}, refs := t.refs - {f}, depth := t.depth - {f})
  }

  /** A deleted file, or a directory whose entries name nothing. */
  lemma {:induction false} RemoveOk(t: Tree, d: nat, s: seq<Slot>, i: nat)
    requires TreeOk(t) && NamesAt(t, d, i) && RemovedEntry(t.dirs[d], s, i)
    requires ItemAt(t, d, i).isDir ==> ItemAt(t, d, i).first in t.dirs && NoChains(t, ItemAt(t, d, i).first)
    ensures TreeOk(Removed(t, d, s, i))
  {
    hide Tidy, DotsOk, EntryIn, ItemOf, TreeOk, DirOk, RefOk, NamesAt, NameOk, Above, NoChains;
    HeadsIn(t);
    NamedFacts(t, d, i);
    DirFacts(t, d);
    DotsRemoved(d, Above(t, d), t.dirs[d], s, i);
    var t' := Removed(t, d, s, i);
    forall d': nat, j: nat | NamesAt(t', d', j)
      ensures NameOk(t', d', j)
    {
      RemoveName(t, d, s, i, d', j);
    }
    forall x | x in t'.dirs
      ensures DirOk(t', x)
    {
      RemoveDir(t, d, s, i, x);
    }
    forall r | r in t'.refs
      ensures RefOk(t', r)
    {
      RemoveRef(t, d, s, i, r);
    }
    TreeIntro(t');
  }

  /** What an entry names is a chain of its own, apart from the directory, the root and the loose chains. */
  lemma {:induction false} NamedFacts(t: Tree, d: nat, i: nat)
    requires TreeOk(t) && NamesAt(t, d, i)
    ensures d in t.dirs && i < |t.dirs[d]| && !DotSlot(t.dirs[d][i]) && EntryIn(t.dirs[d], i)
    ensures
      var f := ItemAt(t, d, i).first;
      if f == 0 then !ItemAt(t, d, i).isDir
      else
        && f in t.heads && f != d && f != t.root && f !in t.loose && f in t.refs && t.refs[f] == (d, i)
        && (f in t.dirs <==> ItemAt(t, d, i).isDir)
  {
    hide Tidy, DotsOk, EntryIn, ItemOf, TreeOk;
    EntryRange(t.dirs[d]);
    EntryNamed(t, d, i);
  }

  lemma {:induction false} RemoveName(t: Tree, d: nat, s: seq<Slot>, i: nat, d': nat, j: nat)
    requires TreeOk(t) && NamesAt(t, d, i) && RemovedEntry(t.dirs[d], s, i) && NamesAt(Removed(t, d, s, i), d', j)
    ensures NameOk(Removed(t, d, s, i), d', j)
  {
    hide Tidy, DotsOk, EntryIn, ItemOf, TreeOk;
    var t' := Removed(t, d, s, i);
    NamedFacts(t, d, i);
    assert (d', j) != (d, i);
    assert d' == d ==> SameEntry(t.dirs[d], s, j);
    NamesElsewhere(t, t', d, s, d', j);
    EntryNamed(t, d', j);
    NameKept(t, t', d', j);
  }

  lemma {:induction false} Unnamed(t: Tree, d: nat, i: nat)
    requires d in t.dirs && NoChains(t, d)
    ensures NamesAt(t, d, i) ==> ItemAt(t, d, i).first == 0
  {
    hide EntryIn;
    EntryRange(t.dirs[d]);
  }

  lemma {:induction false} RemoveRef(t: Tree, d: nat, s: seq<Slot>, i: nat, r: nat)
    requires TreeOk(t) && NamesAt(t, d, i) && RemovedEntry(t.dirs[d], s, i) && r in Removed(t, d, s, i).refs
    requires ItemAt(t, d, i).isDir ==> ItemAt(t, d, i).first in t.dirs && NoChains(t, ItemAt(t, d, i).first)
    ensures RefOk(Removed(t, d, s, i), r)
  {
    hide Tidy, DotsOk, EntryIn, ItemOf, TreeOk, NameOk, NoChains;
    NamedFacts(t, d, i);
    var t', f := Removed(t, d, s, i), ItemAt(t, d, i).first;
    RefKept(t, r);
    var (p, j) := t.refs[r];
    assert (p, j) != (d, i);
    if f != 0 && f in t.dirs {
      Unnamed(t, f, j);
    }
    assert p == d ==> SameEntry(t.dirs[d], s, j);
    NamesStay(t, t', d, s, p, j);
    RefSame(t, t', r);
  }

  lemma {:induction false} RemoveDir(t: Tree, d: nat, s: seq<Slot>, i: nat, x: nat)
    requires TreeOk(t) && NamesAt(t, d, i) && Tidy(s) && DotsOk(d, Above(t, d), s)
    requires ItemAt(t, d, i).first != 0 ==> ItemAt(t, d, i).first != d && ItemAt(t, d, i).first != t.root
    requires x in Removed(t, d, s, i).dirs
    ensures DirOk(Removed(t, d, s, i), x)
  {
    hide Tidy, DotsOk, TreeOk, ItemAt, EntryIn;
    DirIn(t, d);
    if x != d {
      DirIn(t, x);
      DirKept(t, Removed(t, d, s, i), x);
    }
  }

  /** When entries of a removed directory named chains, nothing names those now. */
  lemma {:induction false} RemoveBad(t: Tree, d: nat, s: seq<Slot>, i: nat, j: nat)
    requires TreeOk(t) && NamesAt(t, d, i) && NamesAt(t, ItemAt(t, d, i).first, j)
    requires ItemAt(t, d, i).first != 0 && ItemAt(t, ItemAt(t, d, i).first, j).first != 0
    ensures !TreeOk(Removed(t, d, s, i))
  {
    hide Tidy, DotsOk, EntryIn, ItemOf, DirOk, NamesOk, NameOk, HeadsOk;
    var t', f := Removed(t, d, s, i), ItemAt(t, d, i).first;
    var k := ItemAt(t, f, j).first;
    NamedFacts(t, d, i);
    NamedFacts(t, f, j);
    assert k in t'.refs && !RefOk(t', k);
  }

  /** Removing an entry keeps the tree if and only if a removed directory named nothing. */
  lemma {:induction false} RemoveExact(t: Tree, d: nat, s: seq<Slot>, i: nat)
    requires TreeOk(t) && NamesAt(t, d, i) && RemovedEntry(t.dirs[d], s, i)
    ensures ItemAt(t, d, i).isDir ==> ItemAt(t, d, i).first != 0 && ItemAt(t, d, i).first in t.dirs
    ensures TreeOk(Removed(t, d, s, i)) <==> (ItemAt(t, d, i).isDir ==> NoChains(t, ItemAt(t, d, i).first))
  {
    hide TreeOk, RemovedEntry, EntryIn, ItemOf;
    NamedFacts(t, d, i);
    var f := ItemAt(t, d, i).first;
    if ItemAt(t, d, i).isDir && !NoChains(t, f) {
      var j: nat :| j < |t.dirs[f]| && EntryIn(t.dirs[f], j) && !DotSlot(t.dirs[f][j])
        && ItemOf(t.dirs[f][j]).first != 0;
      RemoveBad(t, d, s, i, j);
    } else {
      RemoveOk(t, d, s, i);
    }
  }

  /** A dot entry names a directory of the tree, or the root. */
  lemma {:induction false} DotHead(t: Tree, d: nat, i: nat)
    requires TreeOk(t) && d in t.dirs && EntryIn(t.dirs[d], i) && i < |t.dirs[d]| && DotSlot(t.dirs[d][i])
    ensures
      var f := ItemOf(t.dirs[d][i]).first;
      f != 0 ==> f in t.heads && f !in t.loose && f in t.dirs
  {
    hide Tidy, EntryIn, ItemOf, TreeOk, Parse83;
    HeadsIn(t);
    DirFacts(t, d);
    assert DotOk(d, Above(t, d), t.dirs[d], i);
    if d in t.refs {
      RefKept(t, d);
      DirFacts(t, t.refs[d].0);
    }
  }

  /** Without a directory's chain the tree is wrong. */
  lemma {:induction false} HeadLost(t: Tree, f: nat)
    requires f in t.dirs && f !in t.heads && f != 0
    ensures !TreeOk(t)
  {
    hide Tidy, DotsOk, NamesOk, RefsOk;
    if f != t.root {
      assert !DirOk(t, f);
    }
  }

  /** A dot entry may go. */
  lemma {:induction false} DotGone(t: Tree, d: nat, s: seq<Slot>, i: nat)
    requires TreeOk(t) && d in t.dirs && RemovedEntry(t.dirs[d], s, i) && i < |t.dirs[d]| && DotSlot(t.dirs[d][i])
    ensures TreeOk(t.(dirs := t.dirs[d := s]))
  {
    hide Tidy, DotsOk, EntryIn, ItemOf, TreeOk;
    HeadsIn(t);
    DirFacts(t, d);
    DotsRemoved(d, Above(t, d), t.dirs[d], s, i);
    var t' := t.(dirs := t.dirs[d := s]);
    forall d': nat, j: nat | NamesAt(t', d', j)
      ensures NameOk(t', d', j)
    {
      assert d' == d ==> j != i && SameEntry(t.dirs[d], s, j);
      NamesElsewhere(t, t', d, s, d', j);
      EntryNamed(t, d', j);
      NameKept(t, t', d', j);
    }
    forall x | x in t'.dirs
      ensures DirOk(t', x)
    {
      DirIn(t, x);
      if x != d {
        DirKept(t, t', x);
      }
    }
    forall r | r in t'.refs
      ensures RefOk(t', r)
    {
      RefKept(t, r);
      var (p, j) := t.refs[r];
      assert p == d ==> j != i && SameEntry(t.dirs[d], s, j);
      NamesStay(t, t', d, s, p, j);
      RefSame(t, t', r);
    }
    TreeIntro(t');
  }

  /** A directory's parent holds an entry that is no dot: the directory's own. */
  lemma {:induction false} ParentHolds(t: Tree, d: nat)
    requires TreeOk(t) && d in t.dirs && d != t.root
    ensures d in t.refs && t.refs[d].0 in t.dirs && !Bare(t.dirs[t.refs[d].0])
    ensures var up := Above(t, d); t.refs[d].0 == if up == 0 then t.root else up
  {
    hide Tidy, DotsOk, EntryIn, ItemOf, TreeOk;
    HeadsIn(t);
    DirFacts(t, d);
    RefKept(t, d);
    NoZeroRef(t, d);
    var (p, j) := t.refs[d];
    DirFacts(t, p);
  }

  /** The entry at position i of directory d is now at position e, under another name. */
  function Moved(t: Tree, d: nat, s: seq<Slot>, i: nat, e: nat): Tree
    requires NamesAt(t, d, i)
  {
    var f := ItemAt(t, d, i).first;
    t.(dirs := t.dirs[d := s], refs := if f == 0 then t.refs else t.refs[f := (d, e)])
  }

  /** A renamed entry. */
  lemma {:induction false} MoveOk(t: Tree, d: nat, s: seq<Slot>, i: nat, e: nat)
    requires TreeOk(t) && NamesAt(t, d, i) && MovedEntry(t.dirs[d], s, i, e)
    ensures TreeOk(Moved(t, d, s, i, e))
  {
    hide Tidy, DotsOk, EntryIn, ItemOf, TreeOk, DirOk, RefOk, NamesAt, NameOk, Above;
    HeadsIn(t);
    NamedFacts(t, d, i);
    DirFacts(t, d);
    DotsMoved(d, Above(t, d), t.dirs[d], s, i, e);
    var t' := Moved(t, d, s, i, e);
    forall d': nat, j: nat | NamesAt(t', d', j)
      ensures NameOk(t', d', j)
    {
      MoveName(t, d, s, i, e, d', j);
    }
    forall x | x in t'.dirs
      ensures DirOk(t', x)
    {
      MoveDir(t, d, s, i, e, x);
    }
    forall r | r in t'.refs
      ensures RefOk(t', r)
    {
      if r in t.refs {
        NoZeroRef(t, r);
      }
      if r == ItemAt(t, d, i).first {
        MoveOwnRef(t, d, s, i, e);
      } else {
        MoveRef(t, d, s, i, e, r);
      }
    }
    TreeIntro(t');
  }

  lemma {:induction false} MoveName(t: Tree, d: nat, s: seq<Slot>, i: nat, e: nat, d': nat, j: nat)
    requires TreeOk(t) && NamesAt(t, d, i) && MovedEntry(t.dirs[d], s, i, e) && NamesAt(Moved(t, d, s, i, e), d', j)
    ensures NameOk(Moved(t, d, s, i, e), d', j)
  {
    hide Tidy, DotsOk, EntryIn, ItemOf, TreeOk;
    NamedFacts(t, d, i);
    var t' := Moved(t, d, s, i, e);
    if d' != d || j != e {
      assert d' == d ==> j != i;
      assert d' == d ==> SameEntry(t.dirs[d], s, j);
      NamesElsewhere(t, t', d, s, d', j);
      EntryNamed(t, d', j);
      NameKept(t, t', d', j);
    }
  }

  lemma {:induction false} MoveDir(t: Tree, d: nat, s: seq<Slot>, i: nat, e: nat, x: nat)
    requires TreeOk(t) && NamesAt(t, d, i) && Tidy(s) && DotsOk(d, Above(t, d), s) && x in Moved(t, d, s, i, e).dirs
    ensures DirOk(Moved(t, d, s, i, e), x)
  {
    hide Tidy, DotsOk, TreeOk, EntryIn;
    NamedFacts(t, d, i);
    DirIn(t, d);
    DirIn(t, x);
    if x != d {
      DirKept(t, Moved(t, d, s, i, e), x);
    }
  }

  lemma {:induction false} MoveRef(t: Tree, d: nat, s: seq<Slot>, i: nat, e: nat, r: nat)
    requires TreeOk(t) && NamesAt(t, d, i) && MovedEntry(t.dirs[d], s, i, e) && r in t.refs
      && r != ItemAt(t, d, i).first
    ensures RefOk(Moved(t, d, s, i, e), r)
  {
    hide Tidy, DotsOk, EntryIn, ItemOf, TreeOk, NameOk, MovedEntry;
    var t' := Moved(t, d, s, i, e);
    RefKept(t, r);
    var (p, j) := t.refs[r];
    assert (p, j) != (d, i);
    if p == d {
      MovedOther(t.dirs[d], s, i, e, j);
    }
    NamesStay(t, t', d, s, p, j);
  }

  lemma {:induction false} NoZeroRef(t: Tree, r: nat)
    requires TreeOk(t) && r in t.refs
    ensures r != 0
  {
    RefKept(t, r);
    hide TreeOk;
  }

  lemma {:induction false} MoveOwnRef(t: Tree, d: nat, s: seq<Slot>, i: nat, e: nat)
    requires TreeOk(t) && NamesAt(t, d, i) && MovedEntry(t.dirs[d], s, i, e) && ItemAt(t, d, i).first in t.refs
    requires t.refs[ItemAt(t, d, i).first] == (d, i)
    ensures RefOk(Moved(t, d, s, i, e), ItemAt(t, d, i).first)
  {
    hide Tidy, DotsOk, EntryIn, ItemOf, TreeOk, NameOk;
    RefKept(t, ItemAt(t, d, i).first);
  }

  /** A dot entry under another name makes a second entry for the directory or its parent. */
  lemma {:induction false} DotNamed(t: Tree, d: nat, s: seq<Slot>, i: nat, e: nat)
    requires TreeOk(t) && d in t.dirs && MovedEntry(t.dirs[d], s, i, e) && DotSlot(t.dirs[d][i])
    ensures !TreeOk(t.(dirs := t.dirs[d := s]))
  {
    hide Tidy, DotsOk, EntryIn, ItemOf, TreeOk;
    DirFacts(t, d);
    assert DotOk(d, Above(t, d), t.dirs[d], i) by {
      EntryRange(t.dirs[d]);
      DotAt(d, Above(t, d), t.dirs[d], i);
    }
    var t' := t.(dirs := t.dirs[d := s]);
    assert NamesAt(t', d, e) && ItemAt(t', d, e).isDir;
    var f := ItemAt(t', d, e).first;
    if f in t.refs {
      RefKept(t, f);
    }
    assert !NameOk(t', d, e);
    NamesWrong(t', d, e);
  }

  lemma {:induction false} DotAt(d: nat, up: nat, slots: seq<Slot>, i: nat)
    requires DotsOk(d, up, slots) && EntryIn(slots, i) && i < |slots| && DotSlot(slots[i])
    ensures DotOk(d, up, slots, i)
  {
    hide EntryIn, DotOk;
  }

  lemma {:induction false} NamesWrong(t: Tree, d: nat, i: nat)
    requires NamesAt(t, d, i) && !NameOk(t, d, i)
    ensures !TreeOk(t)
  {
    hide NamesAt, NameOk, HeadsOk, DirsOk, RefsOk;
  }

  /** The entry at position i of directory d names chain k instead of the one it named, which is gone. */
  function Retargeted(t: Tree, d: nat, s: seq<Slot>, i: nat, k: nat): Tree
    requires NamesAt(t, d, i)
  {
    var f := ItemAt(t, d, i).first;
    t.(heads := t.heads - {f} + {k}, dirs := t.dirs[d := s], refs := (t.refs - {f})[k := (d, i)])
  }

  /** An overwritten file. */
  lemma {:induction false} RetargetOk(t: Tree, d: nat, i: nat, s: Slot, k: nat)
    requires TreeOk(t) && NamesAt(t, d, i) && !ItemAt(t, d, i).isDir
    requires s[..12] == t.dirs[d][i][..12] && ItemOf(s).first == k && !ItemOf(s).isDir
    requires k != 0 && k != t.root && k !in t.heads - {ItemAt(t, d, i).first}
    ensures TreeOk(Retargeted(t, d, t.dirs[d][i := s], i, k))
  {
    hide Tidy, DotsOk, EntryIn, ItemOf, TreeOk, DirOk, RefOk, NamesAt, NameOk, Above;
    HeadsIn(t);
    NamedFacts(t, d, i);
    DirFacts(t, d);
    RewrittenIn(t.dirs[d], i, s);
    var b: seq<Slot> := t.dirs[d][i := s];
    DotsRewritten(d, Above(t, d), t.dirs[d], i, s);
    var t' := Retargeted(t, d, b, i, k);
    forall d': nat, j: nat | NamesAt(t', d', j)
      ensures NameOk(t', d', j)
    {
      RetargetName(t, d, i, b, k, d', j);
    }
    forall x | x in t'.dirs
      ensures DirOk(t', x)
    {
      RetargetDir(t, d, i, b, k, x);
    }
    forall r | r in t'.refs
      ensures RefOk(t', r)
    {
      if r == k {
        RetargetOwnRef(t, d, i, b, k);
      } else {
        RetargetRef(t, d, i, b, k, r);
      }
    }
    RetargetHeads(t, d, i, b, k);
    TreeIntro(t');
  }

  lemma {:induction false} RetargetHeads(t: Tree, d: nat, i: nat, b: seq<Slot>, k: nat)
    requires TreeOk(t) && NamesAt(t, d, i) && k != 0 && k != t.root && k !in t.heads - {ItemAt(t, d, i).first}
    ensures HeadsOk(Retargeted(t, d, b, i, k))
  {
    hide TreeOk, NamesAt, ItemAt;
    HeadsIn(t);
    NamedFacts(t, d, i);
  }

  lemma {:induction false} RetargetName(t: Tree, d: nat, i: nat, b: seq<Slot>, k: nat, d': nat, j: nat)
    requires TreeOk(t) && NamesAt(t, d, i) && OthersSame(t.dirs[d], b, i) && i < |b| && !ItemAt(t, d, i).isDir
    requires ItemOf(b[i]).first == k && !ItemOf(b[i]).isDir && k != 0 && k != t.root
      && k !in t.heads - {ItemAt(t, d, i).first}
    requires NamesAt(Retargeted(t, d, b, i, k), d', j)
    ensures NameOk(Retargeted(t, d, b, i, k), d', j)
  {
    hide Tidy, DotsOk, EntryIn, ItemOf, TreeOk;
    NamedFacts(t, d, i);
    KeyFree(t, k);
    var t' := Retargeted(t, d, b, i, k);
    if d' != d || j != i {
      assert d' == d ==> SameEntry(t.dirs[d], b, j);
      NamesElsewhere(t, t', d, b, d', j);
      EntryNamed(t, d', j);
      NameKept(t, t', d', j);
    }
  }

  lemma {:induction false} RetargetDir(t: Tree, d: nat, i: nat, b: seq<Slot>, k: nat, x: nat)
    requires TreeOk(t) && NamesAt(t, d, i) && Tidy(b) && DotsOk(d, Above(t, d), b) && !ItemAt(t, d, i).isDir
    requires k != 0 && k != t.root && k !in t.heads - {ItemAt(t, d, i).first} && x in Retargeted(t, d, b, i, k).dirs
    ensures DirOk(Retargeted(t, d, b, i, k), x)
  {
    hide Tidy, DotsOk, TreeOk, EntryIn, ItemAt;
    HeadsIn(t);
    NamedFacts(t, d, i);
    KeyFree(t, k);
    DirIn(t, d);
    DirIn(t, x);
    if x in t.refs {
      NoZeroRef(t, x);
    }
    if x != d {
      DirKept(t, Retargeted(t, d, b, i, k), x);
    }
  }

  lemma {:induction false} RetargetOwnRef(t: Tree, d: nat, i: nat, b: seq<Slot>, k: nat)
    requires TreeOk(t) && NamesAt(t, d, i) && EntryIn(b, i) && i < |b| && !DotSlot(b[i]) && !ItemAt(t, d, i).isDir
    requires ItemOf(b[i]).first == k && k != 0 && k != t.root && k !in t.heads - {ItemAt(t, d, i).first}
    ensures RefOk(Retargeted(t, d, b, i, k), k)
  {
    hide Tidy, DotsOk, EntryIn, ItemOf, TreeOk;
    HeadsIn(t);
    NamedFacts(t, d, i);
    KeyFree(t, k);
  }

  /** What is no chain is no directory. */
  lemma {:induction false} KeyFree(t: Tree, k: nat)
    requires TreeOk(t) && k != t.root
    ensures k in t.dirs ==> k in t.heads
  {
    hide Tidy, DotsOk, EntryIn, NamesOk, RefOk;
    if k in t.dirs {
      assert DirOk(t, k);
    }
  }

  lemma {:induction false} RetargetRef(t: Tree, d: nat, i: nat, b: seq<Slot>, k: nat, r: nat)
    requires TreeOk(t) && NamesAt(t, d, i) && OthersSame(t.dirs[d], b, i) && r in t.refs && r != k
      && r != ItemAt(t, d, i).first
    ensures RefOk(Retargeted(t, d, b, i, k), r)
  {
    hide Tidy, DotsOk, EntryIn, ItemOf, TreeOk, NameOk;
    var t' := Retargeted(t, d, b, i, k);
    RefKept(t, r);
    var (p, j) := t.refs[r];
    assert (p, j) != (d, i);
    assert p == d ==> SameEntry(t.dirs[d], b, j);
    NamesStay(t, t', d, b, p, j);
  }
}
