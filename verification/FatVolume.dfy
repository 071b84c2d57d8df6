/** A FAT volume: the allocation table and the directories together. Every operation keeps each chain of
    the table named by exactly one live directory entry. */
module FatVolume {
  import opened Arith
  import opened Bytes
  import opened FatNames
  import opened FatTable
  import opened FatDir
  import opened FatTree
  import ExfatSpace

  type Owners = ExfatSpace.Owners

  const SLOT_BYTES: nat := 32
  /** Size of the stream's accumulation buffer. */
  const WS_BUFFER: nat := 32768
  const ATTR_FILE: Byte := 0x20
  const ATTR_SUBDIR: Byte := 0x10

  /** Whole clusters of the stream's data in a chain that ends with `last`, the rest still waiting. */
  ghost predicate StreamPart(chain: seq<nat>, last: nat, total: nat, bytes: nat, waiting: nat) {
    chain != [] && last == chain[|chain| - 1] && total == |chain| * bytes + waiting
  }

  /** The slots of every directory but the FAT16 root fill its chain. */
  ghost predicate SizedDirs(own: Owners, dirs: map<nat, seq<Slot>>, per: nat) {
    forall k <- dirs :: k == 0 || (k in own && |dirs[k]| == |own[k].chain| * per)
  }

  /** Every owner but k is as it was, and k still starts where it did. */
  ghost predicate OwnKept(own: Owners, own': Owners, k: nat) {
    own'.Keys == own.Keys && forall j <- own :: j != k ==> own'[j] == own[j]
  }

  lemma {:induction false} GrewKept(own: Owners, own': Owners, k: nat, grown: bool)
    requires GrewTo(own, own', k, grown)
    ensures OwnKept(own, own', k)
  {
  }

  /** Clusters a file of this length takes: at least one. */
  function ClustersFor(len: nat, bytes: nat): (n: nat)
    requires bytes > 0
    ensures n >= 1
  {
    if len <= bytes then 1 else 1 + ClustersFor(len - bytes, bytes)
  }

  /** The slots of a new directory: itself, its parent (0 for the root), and the end mark. */
  function DotSlots(per: nat, c: nat, up: nat): (s: seq<Slot>)
    requires per >= 2 && c < TWO32 && up < TWO32
    ensures |s| == per
  {
    [ShortSlot([DOT] + seq(10, _ => SPACE), ATTR_SUBDIR, c, 0),
      ShortSlot([DOT, DOT] + seq(9, _ => SPACE), ATTR_SUBDIR, up, 0)] + Zeros(per - 2)
  }

  lemma {:induction false} DotParse(n: nat, c: nat)
    requires 1 <= n <= 2 && c < TWO32
    ensures
      var short := (if n == 1 then [DOT] else [DOT, DOT]) + seq(11 - n, _ => SPACE);
      var d := ShortSlot(short, ATTR_SUBDIR, c, 0);
      && d[0] == DOT && d[11] == ATTR_SUBDIR && IsShort(d) && ItemOf(d) == Item(c, 0, true)
      && Parse83(d) == if n == 1 then ONE_DOT else TWO_DOTS
  {
    var short := (if n == 1 then [DOT] else [DOT, DOT]) + seq(11 - n, _ => SPACE);
    var d := ShortSlot(short, ATTR_SUBDIR, c, 0);
    ShortSlotReads(short, ATTR_SUBDIR, c, 0);
    assert d[..11] == short;
    assert d[0] == short[0] && d[8] == short[8] && d[..8] == short[..8];
    assert TakeUntil(d[..8], SPACE) == short[..n] by {
      DotTaken(d[..8], n);
    }
    assert TakeUntil(short[..n], 0) == short[..n] by {
      TakeAll(short[..n], 0);
    }
    assert short[..n] + [] == short[..n];
  }

  lemma {:induction false} DotTaken(s: seq<Byte>, n: nat)
    requires n < |s| && s[n] == SPACE && SPACE !in s[..n]
    ensures TakeUntil(s, SPACE) == s[..n]
  {
    if n > 0 {
      assert s[0] == s[..n][0];
      assert s[1..][..n - 1] == s[..n][1..];
      DotTaken(s[1..], n - 1);
    }
  }

  lemma {:induction false} DotSlotsOk(per: nat, c: nat, up: nat)
    requires per >= 2 && c < TWO32 && up < TWO32
    ensures var cs := DotSlots(per, c, up); Tidy(cs) && Bare(cs) && DotsOk(c, up, cs)
    ensures
      var cs := DotSlots(per, c, up);
      && EntryIn(cs, 0) && ItemOf(cs[0]) == Item(c, 0, true) && Parse83(cs[0]) == ONE_DOT
      && EntryIn(cs, 1) && ItemOf(cs[1]) == Item(up, 0, true) && Parse83(cs[1]) == TWO_DOTS
  {
    DotParse(1, c);
    DotParse(2, up);
    hide ShortSlot, Parse83, ItemOf, Zeros;
    var cs := DotSlots(per, c, up);
    assert forall i :: 2 <= i < |cs| ==> cs[i] == Zeros(per - 2)[i - 2];
    forall k: nat | k <= |cs|
      ensures Block(cs, k) == 0
    {
    }
  }

  class Volume {
    const table: Table
    /** Slots in a cluster. */
    const perCluster: nat
    /** The root directory's first cluster; 0 for the FAT16 root, which lies outside the clusters. */
    const root: nat
    /** What each cluster holds before a directory grows into it. */
    const heap: seq<seq<Slot>>
    /** The slots of every directory, by first cluster. */
    var dirs: map<nat, seq<Slot>>
    /** The open stream: its directory, name, 32-bit length and number of waiting bytes. Its clusters are
        the table's stream. */
    var wsActive: bool
    var wsDir: nat
    var wsName: Name
    var wsLen: nat
    var wsBuffered: nat
    /** How much the stream has been given in all. */
    ghost var wsTotal: nat
    /** Which entry names which chain, and how deep each directory lies. */
    ghost var refs: map<nat, (nat, nat)>
    ghost var depth: map<nat, nat>

    /** fat_mount, on a device in order: no stream is open. */
    constructor (table: Table, perCluster: nat, root: nat, heap: seq<seq<Slot>>, dirs: map<nat, seq<Slot>>,
                 ghost refs: map<nat, (nat, nat)>, ghost depth: map<nat, nat>)
      requires table.Ready() && SlotSized(perCluster, table.total, heap) && SizedDirs(table.own, dirs, perCluster)
      requires TreeOk(Tree(root, table.own.Keys, dirs, refs, {}, depth))
      ensures Valid() && !wsActive && this.table == table && this.dirs == dirs && this.root == root
        && this.perCluster == perCluster
    {
      hide Table.Ready, SizedDirs, SlotSized, TreeOk;
      this.table, this.perCluster, this.root, this.heap, this.dirs := table, perCluster, root, heap, dirs;
      this.refs, this.depth := refs, depth;
      wsActive, wsDir, wsName, wsLen, wsBuffered, wsTotal := false, 0, [], 0, 0, 0;
    }

    function ClusterBytes(): nat { SLOT_BYTES * perCluster }

    /** The open stream's chain, which no entry names yet. */
    ghost function Loose(): set<nat>
      reads this, table
    {
      if wsActive && table.wsFirst != 0 then {table.wsFirst} else {}
    }

    ghost function Names(): Tree
      reads this, table
    {
      Tree(root, table.own.Keys, dirs, refs, Loose(), depth)
    }

    /** The table, the directories and the stream are in order. */
    ghost predicate Valid()
      reads this, table
    {
      Based() && TreeOk(Names()) && StreamValid()
    }

    ghost predicate StreamValid()
      reads this, table
    {
      StreamIn(table.own) && (wsActive ==> wsBuffered < ClusterBytes())
    }

    /** The open stream among these owners. */
    ghost predicate StreamIn(own: Owners)
      reads this, table
    {
      wsActive ==>
        && Ascii(wsName) && wsLen == wsTotal % TWO32 && (wsDir == root || 2 <= wsDir < table.total)
        && if table.wsFirst == 0 then table.wsPrev == 0 && wsTotal == wsBuffered
           else table.wsFirst in own && StreamPart(own[table.wsFirst].chain, table.wsPrev, wsTotal, ClusterBytes(),
             wsBuffered)
    }

    /** The table is in order and fits the directories. */
    ghost predicate Based()
      reads this, table
    {
      table.Ready() && SlotSized(perCluster, table.total, heap) && SizedDirs(table.own, dirs, perCluster)
    }

    // ---- Directories ---------------------------------------------------------------------------

    /** The last cluster of a chain. */
    method LastCluster(first: nat) returns (c: nat)
      requires table.Ready() && first in table.own
      ensures table.own[first].chain != [] && c == table.own[first].chain[|table.own[first].chain| - 1]
    {
      ghost var chain := table.own[first].chain;
      OwnedChain(table.Chains(), table.own, table.at, first);
      c := first;
      ghost var i := 0;
      while true
        invariant 0 <= i < |chain| && c == chain[i]
        decreases |chain| - i
      {
        var n := table.NextCluster(c);
        assert i + 1 < |chain| ==> table.Chains()[chain[i]] == chain[i + 1];
        if n == 0 {
          return;
        }
        c, i := n, i + 1;
      }
    }

    /** The directory that starts at cluster d. */
    method OpenDir(d: nat) returns (dir: Directory)
      requires Based() && d in dirs
      ensures fresh(dir) && dir.Valid() && dir.slots == dirs[d] && dir.table == table && dir.key == d && dir.skip == 0
      ensures dir.fixed == (d == 0) && dir.perCluster == perCluster && dir.log == []
    {
      hide Table.Ready;
      var last := 0;
      if d != 0 {
        last := LastCluster(d);
      }
      dir := new Directory.On(d == 0, perCluster, dirs[d], table, last, heap, d, 0);
    }

    /** fat_create_dirent in directory d. */
    method CreateIn(d: nat, child: Name, attr: Byte, it: Item) returns (code: int, ghost e: nat)
      requires Based() && d in dirs && Tidy(dirs[d]) && Ascii(child) && it.first < TWO32 && it.size < TWO32
        && EntryAttr(attr)
      modifies this`dirs, table`copies, table`allocHint, table`own, table`at
      ensures Based() && OwnKept(old(table.own), table.own, d) && |table.copies| == |old(table.copies)|
      ensures code == 0 <==> !NoEntryFor(old(dirs)[d], child, d == 0 || old(AllUsed(table.Chains())))
      ensures code != 0 ==>
        && dirs == old(dirs) && table.copies == old(table.copies) && table.own == old(table.own)
        && table.at == old(table.at)
      ensures code == 0 ==>
        && dirs.Keys == old(dirs).Keys && dirs == old(dirs)[d := dirs[d]] && AddedEntry(old(dirs)[d], dirs[d], e)
        && e < |dirs[d]| && !DotSlot(dirs[d][e]) && dirs[d][e][11] == attr
        && ItemOf(dirs[d][e]).first == it.first && ItemOf(dirs[d][e]).size == it.size
        && GoesBy(old(dirs)[d], dirs[d], e, child, attr, it)
    {
      hide Table.Ready, SizedDirs, SlotSized, Tidy, Ascii, Legal, NoAlias, NoRoom, AllUsed, NewEntry, FirstFit,
        Placed, Sealed, Zeros, AddedEntry, GrewTo, OwnKept, Created, Writing, EntryAttr, Found, Backed, Known,
        EntryIn, ItemOf;
      TableSize(table);
      ghost var was := dirs[d];
      var dir := OpenDir(d);
      ghost var base, at, entry, alias, grown;
      code, base, at, entry, alias, grown := dir.CreateDirent(child, attr, it);
      GrewKept(old(table.own), table.own, d, grown);
      e := 0;
      if code == 0 {
        LegalSlots(child);
        EntryFilled(was, child, attr, it, entry, alias);
        CreatedIn(was, base, perCluster, at, entry, child, attr, it, alias);
        e := at + |entry| - 1;
        assert GoesBy(was, dir.slots, e, child, attr, it);
      }
      SizedBack(old(table.own), table.own, dirs, perCluster, d, dir.last, dir.slots);
      assert code != 0 ==> dirs[d := dir.slots] == dirs;
      dirs := dirs[d := dir.slots];
    }

    /** An entry for chain k, which has just been made; without one the chain is released. */
    method NameChain(d: nat, child: Name, attr: Byte, k: nat, len: nat, ghost t0: Tree, ghost own0: Owners)
        returns (r: int, ghost e: nat)
      requires Based() && k in table.own && k !in own0 && table.own - {k} == own0 && k != 0
      requires TreeOk(t0) && t0.heads == own0.Keys && t0.dirs == dirs && t0.root == root
      requires d in dirs && Ascii(child) && len < TWO32 && EntryAttr(attr)
      modifies this`dirs, table`copies, table`allocHint, table`own, table`at
      ensures Based() && |table.copies| == |old(table.copies)| && (r == 0 || r == -1)
      ensures r == 0 <==> !NoEntryFor(old(dirs)[d], child, d == 0 || old(AllUsed(table.Chains())))
      ensures r != 0 ==> dirs == old(dirs) && table.own == own0
      ensures r == 0 ==>
        && OwnKept(old(table.own), table.own, d) && d != k && k !in dirs && d < TWO32 && k < TWO32
        && dirs.Keys == old(dirs).Keys && dirs == old(dirs)[d := dirs[d]] && AddedEntry(old(dirs)[d], dirs[d], e)
        && e < |dirs[d]| && !DotSlot(dirs[d][e]) && dirs[d][e][11] == attr
        && ItemOf(dirs[d][e]).first == k && ItemOf(dirs[d][e]).size == len
        && GoesBy(old(dirs)[d], dirs[d], e, child, attr, Item(k, len, false))
    {
      hide Table.Ready, SizedDirs, SlotSized, Tidy, Ascii, AllUsed, AddedEntry, OwnKept, ItemOf, GoesBy, EntryIn,
        TreeOk, EntryAttr, NoEntryFor, View;
      TableSize(table);
      DirFacts(t0, d);
      RootStays(t0, k);
      InTable(table, t0, d);
      r, e := CreateIn(d, child, attr, Item(k, len, false));
      if r != 0 {
        ghost var chains := table.own;
        table.ReleaseChain(k);
        SizedLess(chains, table.own, dirs, perCluster, k);
        r := -1;
      }
    }

    // ---- mkdir -----------------------------------------------------------------------------------

    /** fat_mkdir: a zeroed cluster with the two dot entries, then an entry for it. */
    method Mkdir(d: nat, child: Name) returns (r: int, ghost c: nat, ghost e: nat)
      requires Valid() && d in dirs && Ascii(child)
      modifies this`dirs, this`refs, this`depth, table`copies, table`allocHint, table`own, table`at
      ensures Valid() && |table.copies| == |old(table.copies)| && (r == 0 || r == -1)
      ensures r == 0 <==>
        var free := old(|FreeEntries(table.Chains())|);
        free >= 1 && !NoEntryFor(old(dirs)[d], child, d == 0 || free == 1)
      ensures r != 0 ==> Names() == old(Names()) && table.own == old(table.own)
      ensures r == 0 ==> DirMade(old(Names()), Names(), perCluster, d, child, e, c)
    {
      hide Table.Ready, SizedDirs, SlotSized, Tidy, Ascii, AllUsed, AddedEntry, OwnKept, ItemOf, GoesBy, DotSlots,
        EntryIn, TreeOk, View, FreeEntries, DirMade, NamesAt, ItemAt, NoEntryFor;
      TableSize(table);
      ghost var t0, own0 := Names(), table.own;
      DirFacts(t0, d);
      BigEnough(perCluster, table.total, heap);
      e := 0;
      var k := OneMore(0, 0);
      c := k;
      if k == 0 {
        NoneFree(table.Chains());
        return -1, c, e;
      }
      ghost var own1 := table.own;
      NoneLeft(table.Chains());
      SizedMore(own0, own1, dirs, perCluster, k);
      r, e := NameChain(d, child, ATTR_SUBDIR, k, 0, t0, own0);
      if r == 0 {
        RecordDir(d, child, k, e, t0, own0, own1);
      }
    }

    /** The new directory's slots. */
    method RecordDir(d: nat, ghost child: Name, k: nat, ghost e: nat, ghost t0: Tree, ghost own0: Owners,
        ghost own1: Owners)
      requires Based() && TreeOk(t0) && d in t0.dirs && d in dirs && k !in own0 && k != 0
        && own1 == own0[k := ExfatSpace.Owner([k], false)]
      requires t0.heads == own0.Keys && t0.root == root && t0.refs == refs && t0.depth == depth && t0.loose == Loose()
      requires OwnKept(own1, table.own, d) && d != k && d < TWO32 && k < TWO32 && dirs == t0.dirs[d := dirs[d]]
      requires AddedEntry(t0.dirs[d], dirs[d], e) && e < |dirs[d]| && !DotSlot(dirs[d][e])
        && dirs[d][e][11] == ATTR_SUBDIR
      requires ItemOf(dirs[d][e]).first == k && ItemOf(dirs[d][e]).size == 0
      requires GoesBy(t0.dirs[d], dirs[d], e, child, ATTR_SUBDIR, Item(k, 0, false))
      requires StreamIn(own0) && (wsActive ==> wsBuffered < ClusterBytes())
      modifies this`dirs, this`refs, this`depth
      ensures Valid() && DirMade(t0, Names(), perCluster, d, child, e, k)
    {
      hide Table.Ready, SlotSized, Tidy, Ascii, AddedEntry, ItemOf, DotSlots, EntryIn, GoesBy, TreeOk, View, DirMade,
        SizedDirs, OwnKept;
      BigEnough(perCluster, table.total, heap);
      DirFacts(t0, d);
      StreamStays(t0, own0, own1, table.own, d, table.wsFirst, wsActive);
      var up := if d == root then 0 else d;
      NewSized(own1, table.own, dirs, perCluster, d, k, DotSlots(perCluster, k, up));
      dirs := dirs[k := DotSlots(perCluster, k, up)];
      refs, depth := refs[k := (d, e)], depth[k := depth[d] + 1];
      MkdirFields(t0, Names(), perCluster, d, child, dirs[d], e, k, up);
    }

    // ---- Writing a file ------------------------------------------------------------------------------

    /** The allocation loop of fat_write_file: n clusters linked to a chain, or none. */
    method AllocChain(n: nat) returns (first: nat, ghost chain: seq<nat>)
      requires table.Ready() && n >= 1
      modifies table`copies, table`allocHint, table`own, table`at
      ensures table.Ready() && |table.copies| == |old(table.copies)|
      ensures first == 0 <==> |FreeEntries(old(table.Chains()))| < n
      ensures first == 0 ==> table.own == old(table.own)
      ensures first != 0 ==> |FreeEntries(table.Chains())| == |FreeEntries(old(table.Chains()))| - n
      ensures first != 0 ==>
        first !in old(table.own) && |chain| == n && table.own == old(table.own)[first := ExfatSpace.Owner(chain, false)]
    {
      hide Table.Ready, View, FreeEntries;
      TableSize(table);
      ghost var own0, free0 := table.own, |FreeEntries(table.Chains())|;
      first, chain := 0, [];
      var prev, i := 0, 0;
      while i < n
        invariant i <= n && table.Ready() && table.copies != [] && |table.copies| == |old(table.copies)| && |chain| == i
        invariant |FreeEntries(table.Chains())| + i == free0
        invariant i == 0 ==> first == 0 && prev == 0 && table.own == own0
        invariant i > 0 ==> first != 0 && first !in own0 && prev == chain[i - 1] && prev != 0
        invariant i > 0 ==> table.own == own0[first := ExfatSpace.Owner(chain, false)]
      {
        var c := OneMore(first, prev);
        if c == 0 {
          NoneFree(table.Chains());
          assert free0 == i;
          if first != 0 {
            table.ReleaseChain(first);
            assert own0[first := ExfatSpace.Owner(chain, false)] - {first} == own0;
          }
          return 0, chain;
        }
        if first == 0 {
          first := c;
          assert chain + [c] == [c];
        }
        prev, i, chain := c, i + 1, chain + [c];
        assert table.own == own0[first := ExfatSpace.Owner(chain, false)];
      }
    }

    /** The first or the next cluster of a chain. */
    method OneMore(first: nat, prev: nat) returns (c: nat)
      requires table.Ready() && (prev != 0 ==>
        && first in table.own && table.own[first].chain != []
        && prev == table.own[first].chain[|table.own[first].chain| - 1])
      modifies table`copies, table`allocHint, table`own, table`at
      ensures table.Ready() && table.copies != [] && |table.copies| == |old(table.copies)|
      ensures c == 0 ==>
        && table.copies == old(table.copies) && table.own == old(table.own)
        && forall x :: 2 <= x < |table.Chains()| ==> table.Chains()[x] != 0
      ensures c != 0 ==> |FreeEntries(table.Chains())| == |FreeEntries(old(table.Chains()))| - 1
      ensures c != 0 && prev == 0 ==>
        && c !in old(table.own)
        && table.own == old(table.own)[c := ExfatSpace.Owner([c], false)]
      ensures c != 0 && prev != 0
        ==> table.own == old(table.own)[first := old(table.own)[first].(chain := old(table.own)[first].chain + [c])]
    {
      hide Table.Ready, View, FreeEntries;
      TableSize(table);
      ghost var view := table.Chains();
      if prev != 0 {
        LinkUsed(table, first);
        c := table.ExtendChain(prev, first);
        TableSize(table);
        if c != 0 {
          FreeTaken(view, c);
          FreeLinked(view[c := ExfatSpace.EOC_WRITE], prev, c);
        }
      } else {
        c := table.NewChain();
        TableSize(table);
        if c != 0 {
          FreeTaken(view, c);
        }
      }
    }

    /** fat_write_file: an existing file's chain is released first and its entry rewritten in place;
        otherwise a new entry is made. */
    method WriteFile(d: nat, child: Name, len: nat) returns (r: int, ghost e: nat, ghost k: nat)
      requires Valid() && d in dirs && Ascii(child) && len < TWO32
      modifies this`dirs, this`refs, table`copies, table`allocHint, table`own, table`at
      ensures (r == 0 || r == -1) && |table.copies| == |old(table.copies)| && Based()
      ensures
        var f, n, free := Found(old(dirs)[d], child), ClustersFor(len, ClusterBytes()),
          old(|FreeEntries(table.Chains())|);
        if f.None? then
          && Valid()
          && (r == 0 <==> free >= n && !NoEntryFor(old(dirs)[d], child, d == 0 || free == n))
          && (r == 0 ==> FileMade(old(Names()), Names(), d, child, e, k, len) && ChainSize(table.own, k) == n)
          && (r != 0 ==> Names() == old(Names()) && table.own == old(table.own))
        else if ItemOf(old(dirs)[d][f.value]).isDir then
          r == -1 && Valid() && Names() == old(Names()) && table.own == old(table.own)
            && table.copies == old(table.copies)
        else
          var old0 := ItemOf(old(dirs)[d][f.value]).first;
          && (r == 0 <==> free + ChainSize(old(table.own), old0) >= n)
          && (r == 0 ==>
            && Valid() && e == f.value && FileReplaced(old(Names()), Names(), d, e, k, len)
            && ChainSize(table.own, k) == n)
          && (r != 0 ==> dirs == old(dirs) && refs == old(refs) && table.own == old(table.own) - {old0})
          && (r != 0 ==> (Valid() <==> old0 == 0))
    {
      hide Table.Ready, SizedDirs, SlotSized, Tidy, Ascii, Legal, NoAlias, NoRoom, AllUsed, AddedEntry, OwnKept,
        ItemOf, GoesBy, EntryIn, TreeOk, DotsOk, View, FreeEntries, FileMade, FileReplaced, NamesAt, ItemAt, SlotsOf,
        Found, NoEntryFor, ClustersFor, RunPositions;
      DirFacts(Names(), d);
      BigEnough(perCluster, table.total, heap);
      e, k := 0, 0;
      var n := ClustersFor(len, ClusterBytes());
      var dir := OpenDir(d);
      var hit := dir.Locate(child);
      if hit.None? {
        r, e, k := NewFile(d, child, len, n);
      } else if hit.value.item.isDir {
        HitItem(dirs[d], child, hit.value);
        r := -1;
      } else {
        HitItem(dirs[d], child, hit.value);
        e := hit.value.at;
        r, k := OverwriteFile(d, hit.value.at, child, len, n);
      }
    }

    /** A file that was not there. */
    method NewFile(d: nat, child: Name, len: nat, n: nat) returns (r: int, ghost e: nat, ghost k: nat)
      requires Valid() && d in dirs && Ascii(child) && len < TWO32 && n >= 1
      modifies this`dirs, this`refs, table`copies, table`allocHint, table`own, table`at
      ensures (r == 0 || r == -1) && |table.copies| == |old(table.copies)| && Valid()
      ensures r == 0 <==>
        var free := old(|FreeEntries(table.Chains())|);
        free >= n && !NoEntryFor(old(dirs)[d], child, d == 0 || free == n)
      ensures r == 0 ==>
        && FileMade(old(Names()), Names(), d, child, e, k, len) && k in table.own
        && |table.own[k].chain| == n
      ensures r != 0 ==> Names() == old(Names()) && table.own == old(table.own)
    {
      hide Table.Ready, SizedDirs, SlotSized, Tidy, Ascii, AllUsed, AddedEntry, OwnKept, ItemOf, GoesBy, EntryIn,
        TreeOk, View, FreeEntries, FileMade, NamesAt, ItemAt, NoEntryFor;
      ghost var t0, own0 := Names(), table.own;
      e, k := 0, 0;
      var first, chain := AllocChain(n);
      if first == 0 {
        return -1, e, k;
      }
      ghost var own1 := table.own;
      k := first;
      NoneLeft(table.Chains());
      SizedWith(own0, own1, dirs, perCluster, k, chain);
      r, e := NameChain(d, child, ATTR_FILE, first, len, t0, own0);
      if r == 0 {
        StreamStays(t0, own0, own1, table.own, d, table.wsFirst, wsActive);
        NewChainKept(t0, own0, own1, table.own, d, k, chain);
        refs := refs[first := (d, e)];
        FileFields(t0, Names(), d, child, dirs[d], e, k, len);
      }
    }

    /** fat_free_chain on a chain that is not the stream's; 0 is no chain. */
    method ReleaseHead(f: nat)
      requires Valid() && (f == 0 || (f in table.own && f !in Loose()))
      modifies table`copies, table`own, table`at
      ensures table.Ready() && |table.copies| == |old(table.copies)| && StreamValid() && Loose() == old(Loose())
      ensures table.own == old(table.own) - {f} && (f == 0 ==> table.copies == old(table.copies))
      ensures |FreeEntries(table.Chains())| == old(|FreeEntries(table.Chains())|) + ChainSize(old(table.own), f)
      ensures SizedDirs(table.own, if f == 0 then dirs else dirs - {f}, perCluster) && 0 !in old(table.own)
    {
      hide Table.Ready, SlotSized, Ascii, TreeOk, View, FreeEntries;
      TableSize(table);
      NoZero(Names());
      if f != 0 {
        ReleaseGain(table, f);
        table.ReleaseChain(f);
        TableSize(table);
      }
    }

    /** A file that was there. */
    method OverwriteFile(d: nat, i: nat, ghost child: Name, len: nat, n: nat) returns (r: int, ghost k: nat)
      requires Valid() && d in dirs && len < TWO32 && n >= 1
      requires Found(dirs[d], child) == Some(i) && i < |dirs[d]| && !ItemOf(dirs[d][i]).isDir
      modifies this`dirs, this`refs, table`copies, table`allocHint, table`own, table`at
      ensures (r == 0 || r == -1) && |table.copies| == |old(table.copies)| && Based()
      ensures
        var old0 := ItemOf(old(dirs)[d][i]).first;
        && (r == 0 <==> |FreeEntries(old(table.Chains()))| + ChainSize(old(table.own), old0) >= n)
        && (r == 0 ==> Valid() && FileReplaced(old(Names()), Names(), d, i, k, len) && ChainSize(table.own, k) == n)
        && (r != 0 ==> dirs == old(dirs) && refs == old(refs) && table.own == old(table.own) - {old0})
        && (r != 0 ==> (Valid() <==> old0 == 0))
    {
      hide Table.Ready, SizedDirs, SlotSized, Tidy, Ascii, ItemOf, EntryIn, TreeOk, DotsOk, View, FreeEntries,
        FileReplaced, NamesAt, ItemAt, Found;
      ghost var t0 := Names();
      var f := ItemOf(dirs[d][i]).first;
      k := 0;
      FoundNamed(t0, d, child, i);
      NamedFacts(t0, d, i);
      ReleaseHead(f);
      FileDirs(t0, d, i);
      ghost var own1 := table.own;
      var first, chain := AllocChain(n);
      if first == 0 {
        DanglingBad(t0, Names(), d, i);
        return -1, k;
      }
      k := first;
      assert table.own - {first} == own1;
      Redirect(d, i, first, len, t0, chain);
      return 0, k;
    }

    /** The entry at position i of directory d with the new chain and length. */
    method Redirect(d: nat, i: nat, first: nat, len: nat, ghost t0: Tree, ghost chain: seq<nat>)
      requires TreeOk(t0) && NamesAt(t0, d, i) && !ItemAt(t0, d, i).isDir && len < TWO32 && first != 0
        && first !in t0.heads - {ItemAt(t0, d, i).first}
      requires table.Ready() && SlotSized(perCluster, table.total, heap)
        && table.own.Keys == t0.heads - {ItemAt(t0, d, i).first} + {first}
      requires table.own[first] == ExfatSpace.Owner(chain, false) && SizedDirs(table.own - {first}, dirs, perCluster)
        && StreamValid()
      requires dirs == t0.dirs && t0.root == root && t0.refs == refs && t0.depth == depth && t0.loose == Loose()
      modifies this`dirs, this`refs
      ensures Valid() && FileReplaced(t0, Names(), d, i, first, len)
    {
      hide Table.Ready, SizedDirs, SlotSized, Tidy, Ascii, ItemOf, EntryIn, TreeOk, DotsOk, View, FileReplaced,
        Table.StreamChain;
      NamedFacts(t0, d, i);
      SizedWith(table.own - {first}, table.own, dirs, perCluster, first, chain);
      OwnersInTable(table);
      var f := ItemOf(dirs[d][i]).first;
      var slot := WithContent(dirs[d][i], first, len);
      RewrittenContent(dirs[d][i], first, len);
      var slots: seq<Slot> := dirs[d][i := slot];
      SizedSame(table.own, dirs, perCluster, d, slots);
      dirs := dirs[d := slots];
      refs := (refs - {f})[first := (d, i)];
      ReplacedFields(t0, Names(), d, i, slot, slots, first, len);
    }

    // ---- Deleting ------------------------------------------------------------------------------------

    /** fat_dir_is_empty: the walk sees as much of each cluster as its 16 KiB buffer holds. */
    method DirIsEmpty(g: nat) returns (empty: bool)
      requires g in dirs && perCluster > 0 && Tidy(dirs[g])
      ensures empty <==> SeenEmpty(dirs[g], if g == 0 then 1 else perCluster)
    {
      hide EntryIn;
      var slots := dirs[g];
      var per := if g == 0 then 1 else perCluster;
      var base := 0;
      while base < |slots|
        invariant base % per == 0
        invariant forall i: nat :: i < base && i < |slots| && EntryIn(slots, i) && i % per < SEEN ==> DotSlot(slots[i])
        decreases |slots| - base
      {
        var j := 0;
        while j < per && j < SEEN && base + j < |slots|
          invariant j <= per && j <= SEEN && base + j <= |slots|
          invariant forall i: nat ::
            i < base + j && i < |slots| && EntryIn(slots, i) && i % per < SEEN
            ==> DotSlot(slots[i])
        {
          var d := slots[base + j];
          ModAdd(base, j, per);
          if d[0] == 0 {
            NothingAfter(slots, base + j);
            return true;
          }
          if IsShort(d) && !DotSlot(d) {
            EntryHere(slots, base + j);
            return false;
          }
          if !IsShort(d) {
            NoEntryHere(slots, base + j);
          }
          j := j + 1;
        }
        ModSkip(base, per);
        base := base + per;
      }
      return true;
    }

    /** fat_mark_deleted behind fat_free_chain, for an entry that names a file or a directory. */
    method Retire(d: nat, dir: Directory, hit: Hit)
      requires Valid() && NamesAt(Names(), d, hit.at) && dir.slots == dirs[d] && dir.table == table
      requires hit.item == ItemOf(dirs[d][hit.at]) && RunPositions(dirs[d], hit.at, hit.run)
      modifies dir`slots, dir`log, this`dirs, this`refs, this`depth, table`copies, table`own, table`at
      ensures Based() && StreamValid() && |table.copies| == |old(table.copies)|
        && table.own == old(table.own) - {hit.item.first}
      ensures d in dirs && Names() == Removed(old(Names()), d, dirs[d], hit.at)
        && RemovedEntry(old(dirs)[d], dirs[d], hit.at)
      ensures hit.at < |old(dirs)[d]| && dirs[d] == Marked(old(dirs)[d], hit.at)
      ensures |FreeEntries(table.Chains())| == old(|FreeEntries(table.Chains())|) + ChainSize(old(table.own),
        hit.item.first)
      ensures Valid() <==> (hit.item.isDir ==> NoChains(old(Names()), hit.item.first))
    {
      hide Table.Ready, SizedDirs, SlotSized, Tidy, Ascii, ItemOf, EntryIn, TreeOk, View, FreeEntries, RunPositions,
        RemovedEntry, Marked, NoChains, Removed;
      ghost var t0 := Names();
      NamedFacts(t0, d, hit.at);
      DirFacts(t0, d);
      ReleaseHead(hit.item.first);
      dir.MarkDeleted(hit);
      MarkedIn(dirs[d], hit.at);
      Drop(d, hit.at, hit.item.first, dir.slots, t0);
    }

    /** The directory without the entry; the directory that the entry named is no more. */
    method Drop(d: nat, ghost i: nat, f: nat, slots: seq<Slot>, ghost t0: Tree)
      requires TreeOk(t0) && NamesAt(t0, d, i) && dirs == t0.dirs && refs == t0.refs && depth == t0.depth
        && root == t0.root && t0.loose == Loose()
      requires f == ItemAt(t0, d, i).first && table.own.Keys == t0.heads - {f} && RemovedEntry(t0.dirs[d], slots, i)
        && |slots| == |t0.dirs[d]|
      requires table.Ready() && SlotSized(perCluster, table.total, heap) && StreamValid()
      requires SizedDirs(table.own, if f == 0 then dirs else dirs - {f}, perCluster)
      modifies this`dirs, this`refs, this`depth
      ensures Based() && StreamValid() && d in dirs && dirs[d] == slots && Names() == Removed(t0, d, slots, i)
      ensures Valid() <==> (ItemAt(t0, d, i).isDir ==> NoChains(t0, f))
    {
      hide Table.Ready, SizedDirs, SlotSized, Tidy, Ascii, ItemOf, EntryIn, TreeOk, View, RemovedEntry, NoChains,
        Table.StreamChain;
      NamedFacts(t0, d, i);
      NoZero(t0);
      RemoveExact(t0, d, slots, i);
      SizedSame(table.own, if f == 0 then dirs else dirs - {f}, perCluster, d, slots);
      assert f != 0 ==> dirs[d := slots] - {f} == (dirs - {f})[d := slots];
      dirs := dirs[d := slots];
      if f != 0 {
        dirs, refs, depth := dirs - {f}, refs - {f}, depth - {f};
      }
    }

    /** The same for a dot entry. */
    method RetireDot(d: nat, dir: Directory, hit: Hit)
      requires Valid() && d in dirs && EntryIn(dirs[d], hit.at) && DotSlot(dirs[d][hit.at]) && dir.slots == dirs[d]
        && dir.table == table
      requires hit.item == ItemOf(dirs[d][hit.at]) && RunPositions(dirs[d], hit.at, hit.run)
      modifies dir`slots, dir`log, this`dirs, table`copies, table`own, table`at
      ensures |table.copies| == |old(table.copies)| && table.own == old(table.own) - {hit.item.first}
      ensures d in dirs && dirs == old(dirs)[d := dirs[d]] && RemovedEntry(old(dirs)[d], dirs[d], hit.at)
      ensures hit.at < |old(dirs)[d]| && dirs[d] == Marked(old(dirs)[d], hit.at)
      ensures |FreeEntries(table.Chains())| == old(|FreeEntries(table.Chains())|) + ChainSize(old(table.own),
        hit.item.first)
      ensures Valid() <==> hit.item.first == 0
    {
      hide Table.Ready, SizedDirs, SlotSized, Tidy, Ascii, ItemOf, EntryIn, TreeOk, View, FreeEntries, RunPositions,
        RemovedEntry, Marked;
      ghost var t0 := Names();
      var f := hit.item.first;
      EntryRange(dirs[d]);
      DotHead(t0, d, hit.at);
      DirFacts(t0, d);
      ReleaseHead(f);
      dir.MarkDeleted(hit);
      MarkedIn(dirs[d], hit.at);
      dirs := dirs[d := dir.slots];
      if f == 0 {
        SizedSame(table.own, old(dirs), perCluster, d, dir.slots);
        DotGone(t0, d, dir.slots, hit.at);
        assert old(table.own) - {f} == old(table.own);
        assert Names() == t0.(dirs := dirs);
      } else {
        HeadLost(Names(), f);
      }
    }

    /** fat_delete_located: 0; -1 when the name leads nowhere; -2 for a directory that is not seen empty. */
    method DeleteLocated(d: nat, child: Name) returns (r: int)
      requires Valid() && d in dirs
      modifies this`dirs, this`refs, this`depth, table`copies, table`own, table`at
      ensures |table.copies| == |old(table.copies)|
      ensures r == DeleteCode(old(Names()), perCluster, d, child)
      ensures r != 0 ==>
        && Valid() && Names() == old(Names()) && table.own == old(table.own)
        && table.copies == old(table.copies)
      ensures r == 0 ==>
        var i := Found(old(dirs)[d], child).value;
        var it := ItemOf(old(dirs)[d][i]);
        && table.own == old(table.own) - {it.first} && d in dirs && dirs[d] == Marked(old(dirs)[d], i)
          && RemovedEntry(old(dirs)[d], dirs[d], i)
        && |FreeEntries(table.Chains())| == old(|FreeEntries(table.Chains())|) + ChainSize(old(table.own), it.first)
        && if DotSlot(old(dirs)[d][i]) then Valid() <==> it.first == 0
           else
             && NamesAt(old(Names()), d, i) && Names() == Removed(old(Names()), d, dirs[d], i)
             && (it.isDir ==> it.first in old(dirs))
             && (Valid() <==> (it.isDir ==> NoChains(old(Names()), it.first)))
    {
      hide Table.Ready, SizedDirs, SlotSized, Tidy, Ascii, ItemOf, EntryIn, TreeOk, View, FreeEntries, RunPositions,
        RemovedEntry, Marked, NoChains, Found, SeenEmpty;
      ghost var t0 := Names();
      BigEnough(perCluster, table.total, heap);
      var dir := OpenDir(d);
      var hit := dir.Locate(child);
      if hit.None? {
        return -1;
      }
      HitItem(dirs[d], child, hit.value);
      FoundNamed(t0, d, child, hit.value.at);
      ListedDir(t0, d, hit.value.at);
      if hit.value.item.isDir {
        var empty := DirIsEmpty(if hit.value.item.first == 0 then root else hit.value.item.first);
        if !empty {
          return -2;
        }
      }
      if DotSlot(dirs[d][hit.value.at]) {
        RetireDot(d, dir, hit.value);
      } else {
        Retire(d, dir, hit.value);
      }
      return 0;
    }

    // ---- Renaming ------------------------------------------------------------------------------------

    /** fat_rename within directory d. */
    method Rename(d: nat, child: Name, name: Name) returns (code: int, ghost e: nat)
      requires Valid() && d in dirs && Ascii(name)
      modifies this`dirs, this`refs, table`copies, table`allocHint, table`own, table`at
      ensures Based() && |table.copies| == |old(table.copies)| && OwnKept(old(table.own), table.own, d)
      ensures code == RenameCode(old(dirs)[d], child, name, d == 0 || old(AllUsed(table.Chains())))
      ensures code != 0 ==>
        && Valid() && Names() == old(Names()) && table.own == old(table.own)
        && table.copies == old(table.copies)
      ensures code == 0 ==> EntryMoved(old(Names()), Names(), d, child, name, e, Valid())
    {
      hide NamesAt, ItemAt, DotSlot, RenameCode, Table.Ready, SizedDirs, SlotSized, Tidy, Ascii, ItemOf, EntryIn,
        TreeOk, View, Found, MovedEntry, OwnKept, AllUsed, NoAlias, NoRoom, Legal, Is83, SlotsOf, EntryMoved,
        GoesByNow;
      ghost var t0 := Names();
      DirFacts(t0, d);
      code, e := RenameIn(d, child, name);
      StreamStays(t0, old(table.own), old(table.own), table.own, d, table.wsFirst, wsActive);
      if code == 0 {
        Follow(d, child, name, e, t0);
      }
    }

    /** The reference of a chain follows its entry. */
    ghost method Follow(d: nat, child: Name, name: Name, e: nat, t0: Tree)
      requires Based() && StreamValid() && TreeOk(t0) && d in t0.dirs && d in dirs && Found(t0.dirs[d], child).Some?
      requires Names() == t0.(dirs := t0.dirs[d := dirs[d]])
        && MovedEntry(t0.dirs[d], dirs[d], Found(t0.dirs[d], child).value, e)
      requires GoesByNow(t0.dirs[d], dirs[d], Found(t0.dirs[d], child).value, e, name)
      modifies this`refs
      ensures Based() && EntryMoved(t0, Names(), d, child, name, e, Valid())
    {
      hide Table.Ready, SizedDirs, SlotSized, Tidy, ItemOf, EntryIn, TreeOk, Found, MovedEntry, EntryMoved, GoesByNow;
      FoundSlot(t0.dirs[d], child);
      var slot := t0.dirs[d][Found(t0.dirs[d], child).value];
      refs := if DotSlot(slot) || ItemOf(slot).first == 0 then refs else refs[ItemOf(slot).first := (d, e)];
      MovedFields(t0, Names(), d, child, name, e);
    }

    /** The directory's part of it. */
    method RenameIn(d: nat, child: Name, name: Name) returns (code: int, ghost e: nat)
      requires Based() && d in dirs && Tidy(dirs[d]) && Ascii(name)
      modifies this`dirs, table`copies, table`allocHint, table`own, table`at
      ensures Based() && |table.copies| == |old(table.copies)| && OwnKept(old(table.own), table.own, d)
      ensures code == RenameCode(old(dirs)[d], child, name, d == 0 || old(AllUsed(table.Chains())))
      ensures code != 0 ==>
        && dirs == old(dirs) && table.own == old(table.own) && table.copies == old(table.copies)
        && table.at == old(table.at)
      ensures code == 0 ==>
        && d in dirs && dirs == old(dirs)[d := dirs[d]] && Found(old(dirs)[d], child).Some?
        && MovedEntry(old(dirs)[d], dirs[d], Found(old(dirs)[d], child).value, e)
        && GoesByNow(old(dirs)[d], dirs[d], Found(old(dirs)[d], child).value, e, name)
    {
      hide Table.Ready, SizedDirs, SlotSized, Tidy, Ascii, ItemOf, EntryIn, View, Found, MovedEntry, OwnKept, Backed,
        GrewTo, AllUsed, NoAlias, NoRoom, Legal, Is83, RenameSafe, Renamed, Known, SlotsOf;
      TableSize(table);
      var dir := OpenDir(d);
      ghost var alias, grown;
      code, e, alias, grown := dir.Rename(child, name);
      GrewKept(old(table.own), table.own, d, grown);
      SizedBack(old(table.own), table.own, dirs, perCluster, d, dir.last, dir.slots);
      assert code != 0 ==> dirs[d := dir.slots] == dirs;
      dirs := dirs[d := dir.slots];
    }

    // ---- Streaming -----------------------------------------------------------------------------------

    /** fat_write_open: what has the name is retired first. */
    method StreamOpen(d: nat, child: Name) returns (r: int)
      requires Valid() && d in dirs && Ascii(child)
      modifies this, table`copies, table`own, table`at, table`wsFirst, table`wsPrev, table`atOpen
      ensures Valid() && |table.copies| == |old(table.copies)| && (r == 0 || r == -1)
      ensures r != 0 <==> old(wsActive) || ClusterBytes() > WS_BUFFER || LeadsToDir(old(dirs)[d], child)
      ensures r != 0 ==> Names() == old(Names()) && table.own == old(table.own) && wsActive == old(wsActive)
      ensures r == 0 ==> wsActive && wsDir == d && d in dirs && wsName == child && wsTotal == 0 && table.wsFirst == 0
      ensures r == 0 ==> if Found(old(dirs)[d], child).None? then Names() == old(Names()) && table.own == old(table.own)
        else FileRetired(old(Names()), Names(), old(table.own), table.own, d, Found(old(dirs)[d], child).value)
    {
      hide Table.Ready, SizedDirs, SlotSized, Tidy, Ascii, ItemOf, EntryIn, TreeOk, View, FreeEntries, RunPositions,
        RemovedEntry, Marked, NoChains, Found, FileRetired, LeadsToDir;
      if wsActive || ClusterBytes() > WS_BUFFER {
        return -1;
      }
      BigEnough(perCluster, table.total, heap);
      DirRange(table, Names(), d);
      r := RetireFile(d, child);
      if r == 0 {
        assert Loose() == {};
        ghost var t := Names();
        wsActive, wsDir, wsName, wsLen, wsBuffered, wsTotal := true, d, child, 0, 0, 0;
        table.StreamOpen();
        assert Names() == t;
      }
    }

    /** Retire the file of this name, if there is one; a directory is refused. */
    method RetireFile(d: nat, child: Name) returns (r: int)
      requires Valid() && d in dirs
      modifies this`dirs, this`refs, this`depth, table`copies, table`own, table`at
      ensures Valid() && |table.copies| == |old(table.copies)| && (r == 0 || r == -1)
        && (r != 0 <==> LeadsToDir(old(dirs)[d], child))
      ensures d in dirs
      ensures r != 0 || Found(old(dirs)[d], child).None? ==> Names() == old(Names()) && table.own == old(table.own)
      ensures r == 0 && Found(old(dirs)[d], child).Some? ==>
        FileRetired(old(Names()), Names(), old(table.own), table.own, d, Found(old(dirs)[d], child).value)
    {
      hide Table.Ready, SizedDirs, SlotSized, Tidy, Ascii, ItemOf, EntryIn, TreeOk, View, FreeEntries, RunPositions,
        RemovedEntry, Marked, NoChains, Found, Removed;
      var dir := OpenDir(d);
      var hit := dir.Locate(child);
      r := 0;
      if hit.Some? {
        HitItem(dirs[d], child, hit.value);
        if hit.value.item.isDir {
          return -1;
        }
        FoundNamed(Names(), d, child, hit.value.at);
        Retire(d, dir, hit.value);
      }
    }

    /** fat_ws_flush_cluster: one more cluster, the waiting bytes and zeros. */
    method FlushCluster() returns (ok: bool)
      requires Based() && TreeOk(Names()) && wsActive && table.StreamChain()
      modifies this`wsBuffered, table`copies, table`allocHint, table`own, table`at, table`wsFirst, table`wsPrev
      ensures Based() && TreeOk(Names()) && table.StreamChain() && |table.copies| == |old(table.copies)|
      ensures ok <==> old(|FreeEntries(table.Chains())|) >= 1
      ensures !ok ==>
        && table.own == old(table.own) && table.wsFirst == old(table.wsFirst)
        && table.wsPrev == old(table.wsPrev) && wsBuffered == old(wsBuffered)
      ensures ok ==>
        && wsBuffered == 0 && |FreeEntries(table.Chains())| == old(|FreeEntries(table.Chains())|) - 1
        && Longer(old(table.own), table.own, old(table.wsFirst), table.wsFirst, table.wsPrev)
    {
      hide Table.Ready, SizedDirs, SlotSized, Tidy, Ascii, ItemOf, EntryIn, TreeOk, View, FreeEntries;
      TableSize(table);
      ghost var t0, own0 := Names(), table.own;
      OwnersInTable(table);
      NoZero(t0);
      ok := table.StreamFlush();
      TableSize(table);
      if ok {
        wsBuffered := 0;
        StreamLonger(t0, own0, table.own, dirs, perCluster, old(table.wsFirst), table.wsFirst, table.wsPrev);
      } else {
        NoneFree(table.Chains());
      }
    }

    /** fat_write_append of n bytes: a full volume ends the stream. */
    method Append(n: nat) returns (r: int)
      requires Valid()
      modifies this`wsActive, this`wsLen, this`wsBuffered, this`wsTotal
      modifies table`copies, table`allocHint, table`own, table`at, table`wsFirst, table`wsPrev
      ensures Valid() && |table.copies| == |old(table.copies)| && (r == 0 || r == -1)
      ensures !old(wsActive) ==>
        && r == -1 && !wsActive && table.own == old(table.own)
        && table.copies == old(table.copies)
      ensures old(wsActive) ==> (r == 0
        <==> HasRoom(old(|FreeEntries(table.Chains())|), ClusterBytes(), old(wsBuffered) + n))
      ensures r == 0 ==>
        && wsActive && wsTotal == old(wsTotal) + n
          && table.own - {table.wsFirst} == old(table.own) - {old(table.wsFirst)}
        && (old(table.wsFirst) != 0 ==> table.wsFirst == old(table.wsFirst))
      ensures old(wsActive) && r != 0 ==> !wsActive && table.own == old(table.own) - {old(table.wsFirst)}
    {
      hide Valid, View, FreeEntries, HasRoom, ClusterBytes;
      if !wsActive {
        return -1;
      }
      var left: nat := n;
      ghost var bytes := ClusterBytes();
      WellMounted();
      while left > 0
        invariant Valid() && wsActive && |table.copies| == |old(table.copies)| && left <= n && table.copies != []
        invariant wsTotal == old(wsTotal) + n - left && wsBuffered < bytes && bytes == ClusterBytes()
        invariant HasRoom(|FreeEntries(table.Chains())|, bytes, wsBuffered + left)
          <==> HasRoom(old(|FreeEntries(table.Chains())|), bytes, old(wsBuffered) + n)
        invariant table.own - {table.wsFirst} == old(table.own) - {old(table.wsFirst)}
        invariant old(table.wsFirst) != 0 ==> table.wsFirst == old(table.wsFirst)
      {
        ghost var free, waiting, total := |FreeEntries(table.Chains())|, wsBuffered, left;
        var take, ok := AppendPart(left);
        left := left - take;
        if !ok {
          RoomNone(bytes, waiting + total);
          return -1;
        }
        WellMounted();
        if waiting + take == bytes {
          RoomFlushed(free, bytes, left);
        }
      }
      RoomEnd(|FreeEntries(table.Chains())|, bytes, wsBuffered);
      return 0;
    }

    ghost method WellMounted()
      requires Valid()
      ensures table.copies != [] && (wsActive ==> wsBuffered < ClusterBytes())
    {
      TableSize(table);
    }

    /** Fill the waiting cluster and flush it when it is full. */
    method AppendPart(left: nat) returns (take: nat, ok: bool)
      requires Valid() && wsActive && left > 0
      modifies this`wsActive, this`wsLen, this`wsBuffered, this`wsTotal
      modifies table`copies, table`allocHint, table`own, table`at, table`wsFirst, table`wsPrev
      ensures Valid() && |table.copies| == |old(table.copies)| && wsActive == ok && 0 < take <= left
        && old(wsBuffered) + take <= ClusterBytes()
      ensures ok ==>
        && wsTotal == old(wsTotal) + take && table.own - {table.wsFirst} == old(table.own) - {old(table.wsFirst)}
        && (old(table.wsFirst) != 0 ==> table.wsFirst == old(table.wsFirst))
        && wsBuffered == (if old(wsBuffered) + take == ClusterBytes() then 0 else old(wsBuffered) + take)
        && |FreeEntries(table.Chains())| + (if old(wsBuffered) + take == ClusterBytes() then 1 else 0)
          == old(|FreeEntries(table.Chains())|)
      ensures !ok ==>
        && old(wsBuffered) + take == ClusterBytes() && old(|FreeEntries(table.Chains())|) == 0
        && table.own == old(table.own) - {old(table.wsFirst)}
    {
      hide Table.Ready, SizedDirs, SlotSized, Tidy, Ascii, TreeOk, View, FreeEntries, StreamPart;
      TableSize(table);
      var space := ClusterBytes() - wsBuffered;
      take := if left < space then left else space;
      ghost var was, first, prev, total := table.own, table.wsFirst, table.wsPrev, wsTotal + take;
      MoreWaiting(was, first, prev, wsTotal, ClusterBytes(), wsBuffered, take);
      wsBuffered, wsTotal, wsLen := wsBuffered + take, wsTotal + take, (wsLen + take) % TWO32;
      AddMod(old(wsTotal), take, TWO32);
      ok := true;
      if wsBuffered == ClusterBytes() {
        ok := FlushCluster();
        if ok {
          StreamGrown(if first == 0 then [] else was[first].chain, table.own[table.wsFirst].chain, table.wsPrev, total,
            ClusterBytes());
        } else {
          Abandon();
        }
      }
    }

    /** fat_write_close: abandons the stream, or flushes what is left (one cluster for an empty file) and
        makes the entry. When the stream's directory has been removed, the entry goes where its first
        cluster is now: into the directory that has taken it over, or into slots of no directory, which
        are `shown`. */
    method StreamClose(commit: bool, shown: seq<Slot>) returns (r: int, ghost e: nat, ghost k: nat)
      requires Valid()
      modifies this`wsActive, this`wsBuffered, this`dirs, this`refs
      modifies table`copies, table`allocHint, table`own, table`at, table`wsFirst, table`wsPrev
      ensures !wsActive && |table.copies| == |old(table.copies)| && (r == 0 || r == -1)
      ensures !old(wsActive) ==>
        && r == -1 && Valid() && Names() == old(Names()) && table.own == old(table.own)
        && table.copies == old(table.copies)
      ensures old(wsActive) && !commit ==> r == 0
      ensures old(wsActive) && (!commit || r != 0) ==>
        && Valid() && Names() == old(Unstreamed())
        && table.own == old(table.own) - {old(table.wsFirst)}
      ensures old(wsActive) && commit ==>
        var free, need := old(|FreeEntries(table.Chains())|), if old(wsBuffered) > 0 || old(table.wsFirst) == 0 then 1
          else 0;
        r == 0 <==> free >= need && !NoEntryFor(SlotsFrom(old(dirs), old(table.at), perCluster, wsDir, shown), wsName,
          wsDir == 0 || free == need)
      ensures old(wsActive) && commit && r == 0 ==>
        && (Valid() <==> wsDir in old(dirs) || Adopted(old(dirs), old(table.at), perCluster, wsDir))
        && (wsDir in old(dirs) ==> FileMade(old(Unstreamed()), Names(), wsDir, wsName, e, k, wsLen))
        && (wsDir !in old(dirs) && Adopted(old(dirs), old(table.at), perCluster, wsDir) ==>
          FileLanded(old(Unstreamed()), Names(), old(table.at)[wsDir].0, e, k, wsLen))
        && ChainSize(table.own, k) == ClustersFor(wsTotal, ClusterBytes())
    {
      hide Based, TreeOk, View, FreeEntries, NoEntryFor, FileMade, FileLanded, SlotsFrom, Adopted, Hosted, ClustersFor,
        Table.StreamChain;
      e, k := 0, 0;
      Sound();
      if !wsActive {
        return -1, e, k;
      }
      if !commit {
        Abandon();
        return 0, e, k;
      }
      ghost var at0 := table.at;
      var ok := FlushTail();
      if !ok {
        Abandon();
        return -1, e, k;
      }
      HostEqual(dirs, at0, table.at, perCluster, wsDir, shown);
      HeadsIn(Names());
      k := table.wsFirst;
      if wsDir in dirs {
        SlotsOfDir(dirs, at0, perCluster, wsDir, shown);
        r, e := Commit();
      } else {
        r, e := CommitAstray(shown);
      }
    }

    ghost method Sound()
      requires Valid()
      ensures Based() && TreeOk(Names()) && table.copies != []
      ensures wsActive ==>
        table.StreamChain() && Ascii(wsName) && wsLen < TWO32 && (wsDir == root || 2 <= wsDir < table.total)
    {
      hide TreeOk, SizedDirs, SlotSized, View, LinksIn, Chained;
    }

    /** The waiting bytes, or one cluster for an empty file. */
    method FlushTail() returns (ok: bool)
      requires Valid() && wsActive && table.copies != []
      modifies this`wsBuffered, table`copies, table`allocHint, table`own, table`at, table`wsFirst, table`wsPrev
      ensures Based() && TreeOk(Names()) && table.StreamChain() && |table.copies| == |old(table.copies)|
      ensures table.copies != [] && Unstreamed() == old(Unstreamed())
      ensures table.own - {table.wsFirst} == old(table.own) - {old(table.wsFirst)}
      ensures
        var need := if old(wsBuffered) > 0 || old(table.wsFirst) == 0 then 1 else 0;
        && (ok <==> old(|FreeEntries(table.Chains())|) >= need)
        && (ok ==> |FreeEntries(table.Chains())| == old(|FreeEntries(table.Chains())|) - need)
      ensures ok ==>
        && table.wsFirst != 0 && table.wsFirst in table.own
        && |table.own[table.wsFirst].chain| == ClustersFor(wsTotal, ClusterBytes())
      ensures HostedAlike(dirs, old(table.at), table.at, wsDir)
    {
      hide Table.Ready, SizedDirs, SlotSized, Tidy, Ascii, TreeOk, View, FreeEntries, Hosted;
      ghost var was, first, total, waiting, own0, at0 := Names(), table.wsFirst, wsTotal, wsBuffered, table.own,
        table.at;
      NoZero(was);
      PlacesOwned(table);
      TableSize(table);
      ok := true;
      HostedSelf(dirs, at0, wsDir);
      if wsBuffered > 0 || table.wsFirst == 0 {
        ok := FlushCluster();
        TableSize(table);
        if ok {
          Unstreaming(was, Names(), own0, table.own, first, table.wsFirst, table.wsPrev);
          PlacesOwned(table);
          HostKept(was, own0, at0, table.own, table.at, first, table.wsFirst, table.wsPrev, wsDir);
        } else {
          PlacesOwned(table);
          HostKeptSame(dirs, own0, at0, table.at, wsDir);
        }
      }
      if ok {
        StreamSize(if first in own0 then own0[first].chain else [], table.own[table.wsFirst].chain, total,
          ClusterBytes(),
          waiting);
      }
    }

    /** The entry of the stream's chain. */
    method Commit() returns (r: int, ghost e: nat)
      requires Based() && TreeOk(Names()) && wsActive && table.StreamChain() && table.wsFirst != 0 && wsDir in dirs
        && Ascii(wsName) && wsLen < TWO32
      modifies this`wsActive, this`dirs, this`refs, table`copies, table`allocHint, table`own, table`at
      ensures Valid() && !wsActive && |table.copies| == |old(table.copies)| && (r == 0 || r == -1)
      ensures r == 0 <==> !NoEntryFor(old(dirs[wsDir]), wsName, wsDir == 0 || old(|FreeEntries(table.Chains())|) == 0)
      ensures r != 0 ==> Names() == old(Unstreamed()) && table.own == old(table.own) - {table.wsFirst}
      ensures r == 0 ==>
        && FileMade(old(Unstreamed()), Names(), wsDir, wsName, e, table.wsFirst, wsLen)
        && table.wsFirst in table.own && table.own[table.wsFirst] == old(table.own[table.wsFirst])
    {
      hide Table.Ready, SizedDirs, SlotSized, Tidy, Ascii, TreeOk, View, FreeEntries, ItemOf, EntryIn, AllUsed,
        AddedEntry, OwnKept, GoesBy, NoEntryFor, FileMade;
      TableSize(table);
      NoneLeft(table.Chains());
      ghost var t0, own0, k := Unstreamed(), table.own - {table.wsFirst}, table.wsFirst;
      LooseDropOk(Names(), k);
      wsActive := false;
      r, e := NameChain(wsDir, wsName, ATTR_FILE, table.wsFirst, wsLen, t0, own0);
      if r == 0 {
        OtherKept(old(table.own), table.own, wsDir, k);
        refs := refs[k := (wsDir, e)];
        FileFields(t0, Names(), wsDir, wsName, dirs[wsDir], e, k, wsLen);
      } else {
        assert Names() == t0;
      }
    }

    /** The entry of the stream's chain when the stream's directory is no more. */
    method CommitAstray(shown: seq<Slot>) returns (r: int, ghost e: nat)
      requires Based() && TreeOk(Names()) && wsActive && table.StreamChain() && table.wsFirst != 0 && wsDir !in dirs
        && Ascii(wsName) && wsLen < TWO32 && 2 <= wsDir < table.total
      modifies this`wsActive, this`dirs, this`refs, table`copies, table`allocHint, table`own, table`at
      ensures !wsActive && |table.copies| == |old(table.copies)| && (r == 0 || r == -1)
      ensures r == 0 <==>
        !NoEntryFor(SlotsFrom(old(dirs), old(table.at), perCluster, wsDir, shown), wsName,
          old(|FreeEntries(table.Chains())|) == 0)
      ensures r != 0 ==>
        Valid() && Names() == old(Unstreamed()) && table.own == old(table.own) - {table.wsFirst}
      ensures r == 0 ==>
        && (Valid() <==> Adopted(old(dirs), old(table.at), perCluster, wsDir))
        && (Adopted(old(dirs), old(table.at), perCluster, wsDir) ==>
          FileLanded(old(Unstreamed()), Names(), old(table.at)[wsDir].0, e, table.wsFirst, wsLen))
        && table.wsFirst in table.own && table.own[table.wsFirst] == old(table.own[table.wsFirst])
    {
      hide Table.Ready, SizedDirs, SlotSized, Tidy, Ascii, TreeOk, View, FreeEntries, ItemOf, EntryIn, NoEntryFor,
        FileLanded, Clear;
      var found, o, j := FindHost(wsDir);
      if found {
        r, e := CommitInto(o, j, j * perCluster);
      } else {
        e := 0;
        r := CommitLost(shown);
      }
    }

    /** The directory that has taken over cluster c, and where in its chain. */
    method FindHost(c: nat) returns (found: bool, o: nat, j: nat)
      requires Based() && TreeOk(Names()) && c !in dirs
      ensures found <==> Hosted(dirs, table.at, c)
      ensures found ==> table.at[c] == (o, j) && o in dirs && o != 0 && o in table.own && 0 < j < |table.own[o].chain|
    {
      hide Table.Ready, SizedDirs, SlotSized, TreeOk, View;
      NoZero(Names());
      PlacesOwned(table);
      found, o, j := false, 0, 0;
      var keys := dirs.Keys;
      while keys != {}
        invariant keys <= dirs.Keys && !found
          && forall d <- dirs.Keys ::
            d !in keys
            ==> !(c in table.at && table.at[c].0 == d)
        decreases keys
      {
        var d :| d in keys;
        keys := keys - {d};
        if d != 0 {
          ChainOfDir(table.own, dirs, perCluster, d);
          found, j := FindIn(d, c);
          if found {
            return true, d, j;
          }
        }
      }
    }

    /** Walk a chain until a cluster is met. */
    method FindIn(first: nat, c: nat) returns (found: bool, j: nat)
      requires table.Ready() && first in table.own
      ensures found <==> c in table.at && table.at[c].0 == first
      ensures found ==> table.at[c] == (first, j) && j < |table.own[first].chain| && table.own[first].chain[j] == c
      ensures c != first ==> !found || j > 0
    {
      hide LinksIn;
      ghost var chain := table.own[first].chain;
      OwnedChain(table.Chains(), table.own, table.at, first);
      PlacesOwned(table);
      hide ExfatSpace.OwnersOk, ExfatSpace.Placed;
      var x := first;
      j := 0;
      while true
        invariant 0 <= j < |chain| && x == chain[j] && forall i :: 0 <= i < j ==> chain[i] != c
        decreases |chain| - j
      {
        if x == c {
          return true, j;
        }
        var n := table.NextCluster(x);
        assert j + 1 < |chain| ==> table.Chains()[chain[j]] == chain[j + 1];
        if n == 0 {
          return false, j;
        }
        x, j := n, j + 1;
      }
    }

    /** The entry goes into the end of a directory, from its cluster number j on. */
    method CommitInto(o: nat, j: nat, p: nat) returns (r: int, ghost e: nat)
      requires Based() && TreeOk(Names()) && wsActive && table.StreamChain() && table.wsFirst != 0
        && Ascii(wsName) && wsLen < TWO32 && o in dirs && o != 0 && o in table.own && 0 < j < |table.own[o].chain|
      requires p == j * perCluster
      modifies this`wsActive, this`dirs, this`refs, table`copies, table`allocHint, table`own, table`at
      ensures !wsActive && |table.copies| == |old(table.copies)| && (r == 0 || r == -1)
      ensures r == 0 <==> !NoEntryFor(Behind(old(dirs[o]), p), wsName, old(|FreeEntries(table.Chains())|) == 0)
      ensures r != 0 ==>
        Valid() && Names() == old(Unstreamed()) && table.own == old(table.own) - {table.wsFirst}
      ensures r == 0 ==>
        && (Valid() <==> Clear(old(dirs[o]), p))
        && (Valid() ==> FileLanded(old(Unstreamed()), Names(), o, e, table.wsFirst, wsLen))
        && table.wsFirst in table.own && table.own[table.wsFirst] == old(table.own[table.wsFirst])
    {
      hide Table.Ready, SizedDirs, SlotSized, Tidy, Ascii, TreeOk, View, FreeEntries, ItemOf, EntryIn, NoEntryFor,
        FileLanded, Clear, AllUsed, AddedEntry, OwnKept;
      ghost var was, t0, k, own0, a := Names(), Unstreamed(), table.wsFirst, table.own, dirs[o];
      LooseDropOk(was, k);
      HeadsIn(was);
      DirFacts(was, o);
      wsActive := false;
      r, e := CreateBehind(o, j, p, k);
      if r != 0 {
        Undo(table.wsFirst, t0, table.own);
        r := -1;
      } else {
        OtherKept(own0, table.own, o, k);
        if Clear(a, p) {
          refs := refs[k := (o, e)];
          FileLands(t0, Names(), o, dirs[o], e, k, wsLen);
        } else {
          NamelessBad(was, Names(), k);
        }
      }
    }

    /** fat_create_dirent in the end of directory o. */
    method CreateBehind(o: nat, j: nat, p: nat, ghost k: nat) returns (r: int, ghost e: nat)
      requires Based() && o in dirs && o != 0 && o in table.own && j < |table.own[o].chain| && p == j * perCluster
      requires Tidy(dirs[o]) && Ascii(wsName) && wsLen < TWO32 && k == table.wsFirst && k in table.own
      modifies this`dirs, table`copies, table`allocHint, table`own, table`at
      ensures Based() && OwnKept(old(table.own), table.own, o) && |table.copies| == |old(table.copies)|
      ensures r == 0 <==> !NoEntryFor(Behind(old(dirs[o]), p), wsName, old(|FreeEntries(table.Chains())|) == 0)
      ensures r != 0 ==> dirs == old(dirs) && table.own == old(table.own)
      ensures r == 0 ==> o in dirs && dirs == old(dirs)[o := dirs[o]]
      ensures r == 0 && Clear(old(dirs[o]), p) ==> LandsAt(old(dirs[o]), dirs[o], e, k, wsLen)
    {
      hide Table.Ready, SizedDirs, SlotSized, Tidy, Ascii, View, FreeEntries, ItemOf, EntryIn, Clear, AllUsed, Backed,
        GrewTo, NewEntry, Placed, Sealed, Zeros, Found, Known, FirstFit, Created, Legal, NoAlias, NoRoom, Writing,
        LandsAt, OwnKept;
      TableSize(table);
      NoneLeft(table.Chains());
      OwnersInTable(table);
      ghost var own0 := table.own;
      var a := dirs[o];
      var last := LastCluster(o);
      TailBacked(own0, dirs, perCluster, o, j, p, last);
      var dir := new Directory.On(false, perCluster, a[p..], table, last, heap, o, j);
      ghost var base, at, entry, alias, grown;
      r, base, at, entry, alias, grown := dir.CreateDirent(wsName, ATTR_FILE, Item(table.wsFirst, wsLen, false));
      e := 0;
      GrewKept(own0, table.own, o, grown);
      SizedTail(own0, table.own, dirs, perCluster, o, j, p, dir.last, dir.slots);
      var slots: seq<Slot> := a[..p] + dir.slots;
      assert r != 0 ==> slots == a && dirs[o := slots] == dirs;
      dirs := dirs[o := slots];
      if r == 0 && Clear(a, p) {
        LegalSlots(wsName);
        FitRoom(base, at, |entry|);
        e := LandsBehind(a, p, base, perCluster, at, entry, wsName, k, wsLen, alias, slots);
      }
    }

    /** A stream that finds no entry is given back. */
    method Undo(k: nat, ghost t0: Tree, ghost own0: Owners)
      requires Based() && TreeOk(t0) && !wsActive && k in table.own && k != 0 && k !in dirs && table.own == own0
      requires t0 == Names().(heads := own0.Keys - {k})
      modifies table`copies, table`own, table`at
      ensures Valid() && Names() == t0 && |table.copies| == |old(table.copies)| && table.own == own0 - {k}
    {
      hide Table.Ready, SizedDirs, SlotSized, TreeOk, View;
      table.ReleaseChain(k);
      SizedLess(own0, table.own, dirs, perCluster, k);
      assert Names() == t0;
    }

    /** The entry goes into slots that belong to no directory. */
    method CommitLost(shown: seq<Slot>) returns (r: int)
      requires Based() && TreeOk(Names()) && wsActive && table.StreamChain() && table.wsFirst != 0
        && Ascii(wsName) && wsLen < TWO32 && 2 <= wsDir < table.total
      modifies this`wsActive, table`copies, table`allocHint, table`own, table`at
      ensures !wsActive && |table.copies| == |old(table.copies)| && (r == 0 || r == -1)
      ensures r == 0 <==> !NoEntryFor(shown, wsName, old(|FreeEntries(table.Chains())|) == 0)
      ensures r != 0 ==>
        Valid() && Names() == old(Unstreamed()) && table.own == old(table.own) - {table.wsFirst}
      ensures r == 0 ==>
        && !Valid() && table.wsFirst in table.own && table.own[table.wsFirst] == old(table.own[table.wsFirst])
    {
      hide Table.Ready, SizedDirs, SlotSized, Tidy, Ascii, TreeOk, View, FreeEntries, ItemOf, EntryIn, AllUsed, Backed,
        GrewTo, NewEntry, Placed, Sealed, Zeros, Found, Known, FirstFit, Created, Legal, NoAlias, NoRoom, Is83, Alias,
        SlotsOf;
      TableSize(table);
      NoneLeft(table.Chains());
      ghost var was, t0, own0 := Names(), Unstreamed(), table.own;
      var k := table.wsFirst;
      LooseDropOk(was, k);
      HeadsIn(was);
      OwnersInTable(table);
      wsActive := false;
      var dir := new Directory.On(true, perCluster, shown, table, 0, heap, 0, 0);
      ghost var base, at, entry, alias, grown;
      r, base, at, entry, alias, grown := dir.CreateDirent(wsName, ATTR_FILE, Item(k, wsLen, false));
      GrewSame(own0, table.own, 0);
      if r == -1 {
        var n := 1;
        if !Is83(wsName) {
          n := dir.GenAlias(wsName);
          Aliases(shown, wsName, n);
        } else {
          ShortAlias(shown, wsName);
        }
        if n != 0 {
          var last := StrayEnd(wsDir);
          var ok := LinkStray(last);
          if ok {
            r := 0;
          }
        }
      }
      if r != 0 {
        Undo(k, t0, table.own);
        r := -1;
      } else {
        NamelessBad(was, Names(), k);
      }
    }

    /** One more cluster behind the last one, whoever owns that. */
    method LinkStray(last: nat) returns (ok: bool)
      requires table.Ready() && last < table.total
      modifies table`copies, table`allocHint
      ensures |table.copies| == |old(table.copies)| && (ok <==> !AllUsed(old(table.Chains())))
      ensures !ok ==> table.Ready() && table.copies == old(table.copies)
      ensures ok ==> Linked(old(table.Chains()), table.Chains(), last)
    {
      hide Chained, LinksIn, View, WithValue;
      TableSize(table);
      ghost var raw, view := table.copies[0], table.Chains();
      var c := table.AllocCluster();
      ok := c != 0;
      assert !ok ==> table.Chains() == view;
      if ok {
        assert view[c] == 0;
        EndValue(table.kind, raw[c]);
        ViewUpdate(table.kind, raw, c, WithValue(table.kind, raw[c], Last(table.kind)));
        ghost var mid := table.copies[0];
        table.WriteEntry(last, c);
        LinkValue(table.kind, mid[last], c, table.total);
        ViewUpdate(table.kind, mid, last, WithValue(table.kind, mid[last], c));
        assert table.Chains() == view[c := ExfatSpace.EOC_WRITE][last := c];
      }
    }

    /** The last cluster of the links from cluster c on; a free cluster links to nothing. */
    method StrayEnd(c: nat) returns (last: nat)
      requires table.Ready() && 2 <= c < table.total
      ensures last < table.total
      ensures last < table.total && table.Chains()[last] in [0, ExfatSpace.EOC_WRITE]
    {
      hide LinksIn;
      PlacesOwned(table);
      TableSize(table);
      ghost var own, at := table.own, table.at;
      ghost var o, i := if c in at then at[c].0 else 0, if c in at then at[c].1 else 0;
      if c in at {
        OwnedChain(table.Chains(), own, at, o);
      }
      hide ExfatSpace.OwnersOk, ExfatSpace.Placed;
      last := c;
      while true
        invariant 2 <= last < table.total
        invariant c in at ==> o in own && i < |own[o].chain| && last == own[o].chain[i]
        invariant c !in at ==> last == c
        decreases if c in at then |own[o].chain| - i else 0
      {
        var n := table.NextCluster(last);
        assert c in at && i + 1 < |own[o].chain| ==> table.Chains()[own[o].chain[i]] == own[o].chain[i + 1];
        if n == 0 {
          return;
        }
        last, i := n, i + 1;
      }
    }

    /** fat_write_close without committing. */
    method Abandon()
      requires Based() && TreeOk(Names()) && wsActive && table.StreamChain()
      modifies this`wsActive, table`copies, table`own, table`at, table`wsFirst, table`wsPrev
      ensures Valid() && !wsActive && |table.copies| == |old(table.copies)|
      ensures Names() == old(Unstreamed()) && table.own == old(table.own) - {old(table.wsFirst)}
    {
      hide Table.Ready, SizedDirs, SlotSized, Tidy, Ascii, TreeOk, View;
      ghost var t0, k := Names(), table.wsFirst;
      NoZero(t0);
      table.StreamAbort();
      wsActive := false;
      if k != 0 {
        LooseDropOk(t0, k);
        SizedFile(t0, old(table.own), table.own, dirs, perCluster, k);
      } else {
        assert old(table.own) - {k} == old(table.own) && t0.heads - {k} == t0.heads;
      }
      assert Names() == LooseDropped(t0, k);
    }

    /** The names without the open stream. */
    ghost function Unstreamed(): Tree
      reads this, table
    {
      LooseDropped(Names(), table.wsFirst)
    }
  }

  /** A free cluster has become the end of the chain that `last` belongs to. */
  ghost predicate Linked(view: seq<nat>, view': seq<nat>, last: nat) {
    exists c :: 2 <= c < |view| && view[c] == 0 && last < |view| && view' == view[c := ExfatSpace.EOC_WRITE][last := c]
  }

  /** The entry at position i and its chain are gone. */
  ghost predicate FileRetired(t0: Tree, t: Tree, own0: Owners, own: Owners, d: nat, i: nat) {
    && NamesAt(t0, d, i) && !ItemAt(t0, d, i).isDir && d in t.dirs && i < |t0.dirs[d]|
      && t.dirs[d] == Marked(t0.dirs[d], i)
    && RemovedEntry(t0.dirs[d], t.dirs[d], i) && t == Removed(t0, d, t.dirs[d], i)
      && own == own0 - {ItemAt(t0, d, i).first}
  }

  // ---- What has become of a removed directory's first cluster ------------------------------------------

  /** Cluster c belongs to a directory's chain. */
  ghost predicate Hosted(dirs: map<nat, seq<Slot>>, at: ExfatSpace.Places, c: nat) { c in at && at[c].0 in dirs }

  function Behind(slots: seq<Slot>, p: nat): seq<Slot> { if p <= |slots| then slots[p..] else [] }

  /** No end mark among the first p slots. */
  predicate Clear(slots: seq<Slot>, p: nat) { forall i :: 0 <= i < p && i < |slots| ==> slots[i][0] != 0 }

  /** The slots found from cluster c on: a directory's, the end of another directory's, or what is `shown` there. */
  ghost function SlotsFrom(dirs: map<nat, seq<Slot>>, at: ExfatSpace.Places, per: nat, c: nat, shown: seq<Slot>):
      seq<Slot> {
    if c in dirs then dirs[c]
    else if Hosted(dirs, at, c) then Behind(dirs[at[c].0], at[c].1 * per)
    else shown
  }

  /** Another directory has taken over cluster c, and its end mark does not lie before that. */
  ghost predicate Adopted(dirs: map<nat, seq<Slot>>, at: ExfatSpace.Places, per: nat, c: nat) {
    Hosted(dirs, at, c) && Clear(dirs[at[c].0], at[c].1 * per)
  }

  lemma {:induction false} PlacesOwned(table: Table)
    requires table.Ready()
    ensures ExfatSpace.Placed(table.own, table.at)
  {
  }

  lemma {:induction false} ChainOfDir(own: Owners, dirs: map<nat, seq<Slot>>, per: nat, d: nat)
    requires SizedDirs(own, dirs, per) && d in dirs && d != 0
    ensures d in own && |dirs[d]| == |own[d].chain| * per
  {
  }

  /** A cluster is the same directory's, or no directory's, in both. */
  ghost predicate HostedAlike(dirs: map<nat, seq<Slot>>, at: ExfatSpace.Places, at': ExfatSpace.Places, c: nat) {
    (Hosted(dirs, at', c) <==> Hosted(dirs, at, c)) && (Hosted(dirs, at, c) ==> c in at && c in at' && at'[c] == at[c])
  }

  lemma {:induction false} HostedSelf(dirs: map<nat, seq<Slot>>, at: ExfatSpace.Places, c: nat)
    ensures HostedAlike(dirs, at, at, c)
  {
  }

  lemma {:induction false} HostEqual(dirs: map<nat, seq<Slot>>, at: ExfatSpace.Places, at': ExfatSpace.Places,
      per: nat, c: nat, shown: seq<Slot>)
    requires HostedAlike(dirs, at, at', c)
    ensures SlotsFrom(dirs, at', per, c, shown) == SlotsFrom(dirs, at, per, c, shown)
    ensures Adopted(dirs, at', per, c) <==> Adopted(dirs, at, per, c)
    ensures Adopted(dirs, at, per, c) ==> c in at && c in at' && at'[c] == at[c]
  {
  }

  lemma {:induction false} SlotsOfDir(dirs: map<nat, seq<Slot>>, at: ExfatSpace.Places, per: nat, c: nat,
      shown: seq<Slot>)
    requires c in dirs
    ensures SlotsFrom(dirs, at, per, c, shown) == dirs[c]
  {
  }

  lemma {:induction false} HostKeptSame(dirs: map<nat, seq<Slot>>, own: Owners, at: ExfatSpace.Places,
      at': ExfatSpace.Places, c: nat)
    requires ExfatSpace.Placed(own, at) && ExfatSpace.Placed(own, at')
    ensures HostedAlike(dirs, at, at', c)
  {
    if c in at {
      assert own[at[c].0].chain[at[c].1] == c;
    }
    if c in at' {
      assert own[at'[c].0].chain[at'[c].1] == c;
    }
  }

  /** A flush of the stream does not change what has become of a cluster. */
  lemma {:induction false} HostKept(t: Tree, own: Owners, at: ExfatSpace.Places, own': Owners, at': ExfatSpace.Places,
      first: nat, first': nat, last: nat, c: nat)
    requires TreeOk(t) && t.heads == own.Keys && Longer(own, own', first, first', last)
    requires t.loose == (if first != 0 then {first} else {}) && (first == 0 ==> first' !in own)
    requires ExfatSpace.Placed(own, at) && ExfatSpace.Placed(own', at')
    ensures HostedAlike(t.dirs, at, at', c)
  {
    hide TreeOk;
    HeadsIn(t);
    forall o | o in t.dirs
      ensures (o in own ==> o in own' && own'[o] == own[o]) && (o in own' ==> o in own)
    {
      DirHead(t, o, first');
      LongerOther(own, own', first, first', last, o);
    }
    if c in at && at[c].0 in t.dirs {
      assert own'[at[c].0].chain[at[c].1] == c;
    }
    if c in at' && at'[c].0 in t.dirs {
      assert own[at'[c].0].chain[at'[c].1] == c;
    }
  }

  lemma {:induction false} LongerOther(own: Owners, own': Owners, first: nat, first': nat, last: nat, o: nat)
    requires Longer(own, own', first, first', last) && 0 !in own && o != first' && (o != first || o == 0)
    ensures o in own <==> o in own'
    ensures o in own ==> own'[o] == own[o]
  {
    assert o in own' - {first'} <==> o in own - {first};
    assert o in own && o != 0 ==> (own' - {first'})[o] == (own - {first})[o];
  }

  /** A directory's chain is neither loose nor new. */
  lemma {:induction false} DirHead(t: Tree, o: nat, k: nat)
    requires TreeOk(t) && o in t.dirs
    ensures o !in t.loose && (k !in t.heads && k != 0 ==> o != k)
  {
    hide TreeOk, Tidy, DotsOk;
    HeadsIn(t);
    DirIn(t, o);
  }

  /** A chain that has lost its stream without getting a name makes the tree wrong. */
  lemma {:induction false} NamelessBad(was: Tree, t: Tree, k: nat)
    requires TreeOk(was) && k in was.loose && k in t.heads && t.root == was.root && t.refs == was.refs && k !in t.loose
    ensures !TreeOk(t)
  {
    hide NamesOk, DirOk;
    if k in was.refs {
      RefKept(was, k);
    }
    assert !HeadsOk(t);
  }

  /** A file's entry is there that was not, at position e. */
  ghost predicate LandsAt(a: seq<Slot>, b: seq<Slot>, e: nat, k: nat, len: nat) {
    && AddedEntry(a, b, e) && e < |b| && !DotSlot(b[e]) && b[e][11] == ATTR_FILE
    && ItemOf(b[e]).first == k && ItemOf(b[e]).size == len
  }

  /** Where an entry made in the end of a directory is. */
  lemma {:induction false} LandsBehind(a: seq<Slot>, p: nat, base: seq<Slot>, per: nat, at: nat, entry: seq<Slot>,
      name: Name, k: nat, len: nat, alias: Name, slots: seq<Slot>) returns (e: nat)
    requires Tidy(a) && Clear(a, p) && p <= |a| && Ascii(name) && Legal(name) && |name| <= LFN_SLOTS * LFN_CHARS
    requires k < TWO32 && len < TWO32 && NewEntry(a[p..], name, ATTR_FILE, Item(k, len, false), entry, alias)
    requires (base == a[p..] || base == a[p..] + Zeros(per)) && FirstFit(base, at, |entry|) && at + |entry| <= |base|
    requires slots == a[..p] + Placed(Sealed(base, at + |entry|), at, entry)
    ensures LandsAt(a, slots, e, k, len)
  {
    hide Tidy, ItemOf, EntryIn, Clear, NewEntry, Placed, Sealed, Zeros, FirstFit, AddedEntry, Legal, Ascii;
    EntryFilled(a[p..], name, ATTR_FILE, Item(k, len, false), entry, alias);
    ClearFront(a, p);
    TailIn(a, p, base, per, at, entry, name, ATTR_FILE, Item(k, len, false), alias);
    e := p + at + |entry| - 1;
  }

  lemma {:induction false} ClearFront(a: seq<Slot>, p: nat)
    requires Clear(a, p) && p <= |a|
    ensures forall i :: 0 <= i < p ==> a[i][0] != 0
  {
  }

  lemma {:induction false} Aliases(slots: seq<Slot>, name: Name, n: nat)
    requires !Is83(name) && n <= 99
    requires forall m :: 1 <= m <= (if n == 0 then 99 else n - 1) ==> Found(slots, Alias(name, m)).Some?
    requires n > 0 ==> Found(slots, Alias(name, n)).None?
    ensures NoAlias(slots, name) <==> n == 0
  {
    hide Is83, Found, Alias;
  }

  lemma {:induction false} TailBacked(own: Owners, dirs: map<nat, seq<Slot>>, per: nat, o: nat, j: nat, p: nat,
      last: nat)
    requires SizedDirs(own, dirs, per) && o in dirs && o != 0 && o in own && j < |own[o].chain| && p == j * per
    requires last == own[o].chain[|own[o].chain| - 1]
    ensures p <= |dirs[o]| && Backed(own, o, j, last, |dirs[o]| - p, per)
  {
    var n := |own[o].chain|;
    MulAtLeastMul(j, n, per);
    assert n * per == j * per + (n - j) * per;
  }

  lemma {:induction false} SizedTail(own: Owners, own': Owners, dirs: map<nat, seq<Slot>>, per: nat, o: nat, j: nat,
      p: nat, last: nat, tail: seq<Slot>)
    requires SizedDirs(own, dirs, per) && OwnKept(own, own', o) && o in dirs && o != 0 && o in own && p == j * per
    requires j < |own[o].chain| && p <= |dirs[o]| && Backed(own', o, j, last, |tail|, per)
    ensures SizedDirs(own', dirs[o := dirs[o][..p] + tail], per)
  {
    assert j * per + (|own'[o].chain| - j) * per == |own'[o].chain| * per;
  }

  ghost predicate LeadsToDir(slots: seq<Slot>, child: Name) {
    var f := Found(slots, child);
    f.Some? && f.value < |slots| && ItemOf(slots[f.value]).isDir
  }

  /** The stream's chain, or a new one, has one more cluster; all other chains are as they were. */
  ghost predicate Longer(own: Owners, own': Owners, first: nat, first': nat, last: nat) {
    && first' != 0 && first' in own' && (first != 0 ==> first' == first && first in own)
      && own' - {first'} == own - {first}
    && own'[first'].chain == (if first == 0 then [] else own[first].chain) + [last]
  }

  lemma {:induction false} StreamLonger(t: Tree, own: Owners, own': Owners, dirs: map<nat, seq<Slot>>, per: nat,
      first: nat, first': nat, last: nat)
    requires TreeOk(t) && t.heads == own.Keys && t.dirs == dirs && t.loose == (if first != 0 then {first} else {})
      && SizedDirs(own, dirs, per)
    requires first' != 0 && 0 !in own && (first != 0 ==>
      && first in own && first' == first
      && own' == own[first := own[first].(chain := own[first].chain + [last])])
    requires first == 0 ==> first' == last && first' !in own && own' == own[first' := ExfatSpace.Owner([first'], false)]
    ensures SizedDirs(own', dirs, per) && Longer(own, own', first, first', last)
    ensures TreeOk(t.(heads := own'.Keys, loose := {first'}))
  {
    hide TreeOk, SizedDirs;
    HeadsIn(t);
    assert own' - {first'} == own - {first};
    if first == 0 {
      RootStays(t, first');
      LooseAddOk(t, first');
      assert LooseAdded(t, first') == t.(heads := own'.Keys, loose := {first'});
      SizedWith(own, own', dirs, per, first', [first']);
    } else {
      assert t.(heads := own'.Keys, loose := {first'}) == t;
      SizedLoose(own, own', dirs, per, first);
    }
  }

  lemma {:induction false} SizedLoose(own: Owners, own': Owners, dirs: map<nat, seq<Slot>>, per: nat, k: nat)
    requires SizedDirs(own, dirs, per) && k !in dirs && k in own && k in own' && own' == own[k := own'[k]]
    ensures SizedDirs(own', dirs, per)
  {
  }

  lemma {:induction false} SizedFile(t: Tree, own: Owners, own': Owners, dirs: map<nat, seq<Slot>>, per: nat, k: nat)
    requires TreeOk(t) && k in t.loose && t.dirs == dirs && SizedDirs(own, dirs, per) && own' == own - {k}
    ensures SizedDirs(own', dirs, per)
  {
    hide TreeOk, SizedDirs;
    HeadsIn(t);
    SizedLess(own, own', dirs, per, k);
  }

  lemma {:induction false} OtherKept(own: Owners, own': Owners, d: nat, k: nat)
    requires OwnKept(own, own', d) && d != k && k in own
    ensures k in own' && own'[k] == own[k] && own'.Keys == own.Keys
  {
  }

  /** Dropping the stream's chain gives the same tree before and after a flush. */
  lemma {:induction false} Unstreaming(t: Tree, t': Tree, own: Owners, own': Owners, first: nat, first': nat, last: nat)
    requires Longer(own, own', first, first', last) && t.heads == own.Keys && t'.heads == own'.Keys && 0 !in own
    requires t.loose == (if first != 0 then {first} else {}) && t'.loose == {first'}
    requires t'.root == t.root && t'.dirs == t.dirs && t'.refs == t.refs && t'.depth == t.depth
    ensures LooseDropped(t', first') == LooseDropped(t, first)
  {
    assert own'.Keys - {first'} == (own' - {first'}).Keys;
    assert own.Keys - {first} == (own - {first}).Keys;
  }

  lemma {:induction false} ClustersExact(size: nat, bytes: nat, rest: nat)
    requires bytes > 0 && rest < bytes
    ensures ClustersFor(size * bytes + rest, bytes) == size + if rest > 0 || size == 0 then 1 else 0
  {
    if size > 0 {
      ClustersExact(size - 1, bytes, rest);
      assert size * bytes + rest - bytes == (size - 1) * bytes + rest;
      MulAtLeastMul(1, size, bytes);
      if size == 1 && rest == 0 {
        assert size * bytes + rest == bytes;
      }
    }
  }

  lemma {:induction false} StreamSize(was: seq<nat>, chain: seq<nat>, total: nat, bytes: nat, waiting: nat)
    requires waiting < bytes && total == |was| * bytes + waiting && |chain| == |was| + if waiting > 0 || was == []
      then 1 else 0
    ensures |chain| == ClustersFor(total, bytes)
  {
    ClustersExact(|was|, bytes, waiting);
  }

  /** The clusters that are free take these bytes, the last cluster not being full. */
  predicate HasRoom(free: nat, bytes: nat, used: nat) { bytes * free + bytes > used }

  lemma {:induction false} RoomNone(bytes: nat, used: nat)
    requires used >= bytes
    ensures !HasRoom(0, bytes, used)
  {
  }

  lemma {:induction false} RoomEnd(free: nat, bytes: nat, waiting: nat)
    requires waiting < bytes
    ensures HasRoom(free, bytes, waiting)
  {
  }

  lemma {:induction false} RoomFlushed(free: nat, bytes: nat, left: nat)
    requires free > 0
    ensures HasRoom(free, bytes, bytes + left) <==> HasRoom(free - 1, bytes, left)
  {
    assert bytes * free == bytes * (free - 1) + bytes;
  }

  /** More waiting bytes. */
  lemma {:induction false} MoreWaiting(own: Owners, first: nat, prev: nat, total: nat, bytes: nat, waiting: nat,
      take: nat)
    requires first != 0 ==> first in own && StreamPart(own[first].chain, prev, total, bytes, waiting)
    ensures first != 0 ==> StreamPart(own[first].chain, prev, total + take, bytes, waiting + take)
    ensures first != 0 ==> own[first].chain != [] && prev == own[first].chain[|own[first].chain| - 1]
    ensures first != 0 ==> total + take == |own[first].chain| * bytes + (waiting + take)
  {
  }

  lemma {:induction false} StreamGrown(was: seq<nat>, chain: seq<nat>, last: nat, total: nat, bytes: nat)
    requires total == |was| * bytes + bytes && chain == was + [last]
    ensures StreamPart(chain, last, total, bytes, 0)
  {
  }

  /** Slots of a cluster that the directory walk sees. */
  const SEEN: nat := 512

  /** The part of a directory that the walk sees holds only dot entries. */
  ghost predicate SeenEmpty(slots: seq<Slot>, per: nat)
    requires per > 0
  {
    forall i: nat :: i < |slots| && EntryIn(slots, i) && i % per < SEEN ==> DotSlot(slots[i])
  }

  /** On clusters up to 16 KiB the walk sees everything. */
  lemma {:induction false} SeenAll(slots: seq<Slot>, per: nat)
    requires 0 < per <= SEEN
    ensures SeenEmpty(slots, per) <==> Bare(slots)
  {
    hide EntryIn;
    EntryRange(slots);
  }

  lemma {:induction false} ModAdd(base: nat, j: nat, per: nat)
    requires per > 0 && base % per == 0 && j < per
    ensures (base + j) % per == j
  {
    AddMod(base, j, per);
    UniqueQuotient(j, per, 0, j);
  }

  lemma {:induction false} ModSkip(base: nat, per: nat)
    requires per > 0 && base % per == 0
    ensures (base + per) % per == 0 && forall i :: base <= i < base + per ==> i % per == i - base
  {
    AddMod(base, per, per);
    UniqueQuotient(per, per, 1, 0);
    forall i: nat | base <= i < base + per
      ensures i % per == i - base
    {
      ModAdd(base, i - base, per);
    }
  }

  lemma {:induction false} NothingAfter(slots: seq<Slot>, k: nat)
    requires k < |slots| && slots[k][0] == 0
    ensures forall i: nat :: EntryIn(slots, i) ==> i < k
  {
  }

  lemma {:induction false} EntryHere(slots: seq<Slot>, k: nat)
    requires k < |slots| && IsShort(slots[k]) && Tidy(slots)
    ensures EntryIn(slots, k)
  {
  }

  lemma {:induction false} NoEntryHere(slots: seq<Slot>, k: nat)
    requires k < |slots| && !IsShort(slots[k])
    ensures !EntryIn(slots, k)
  {
  }

  /** The directory whose slots an entry's directory bit promises: the root for cluster 0. */
  function Listed(t: Tree, it: Item): nat { if it.first == 0 then t.root else it.first }

  lemma {:induction false} ListedDir(t: Tree, d: nat, i: nat)
    requires TreeOk(t) && d in t.dirs && EntryIn(t.dirs[d], i) && i < |t.dirs[d]|
    ensures var it := ItemOf(t.dirs[d][i]); it.isDir ==> Listed(t, it) in t.dirs && Tidy(t.dirs[Listed(t, it)])
  {
    hide Tidy, EntryIn, ItemOf, TreeOk;
    HeadsIn(t);
    if DotSlot(t.dirs[d][i]) {
      DotHead(t, d, i);
    } else {
      NamedFacts(t, d, i);
    }
    if ItemOf(t.dirs[d][i]).isDir {
      DirFacts(t, Listed(t, ItemOf(t.dirs[d][i])));
    }
  }

  /** What fat_delete_located answers. */
  ghost function DeleteCode(t: Tree, per: nat, d: nat, child: Name): int
    requires per > 0 && d in t.dirs
  {
    var f := Found(t.dirs[d], child);
    if f.None? || f.value >= |t.dirs[d]| then -1
    else
      var it := ItemOf(t.dirs[d][f.value]);
      var g := Listed(t, it);
      if it.isDir && g in t.dirs && !SeenEmpty(t.dirs[g], if g == 0 then 1 else per) then -2 else 0
  }

  /** The entry of this name has moved to position e. That keeps the volume in order unless it was a dot entry. */
  ghost predicate EntryMoved(t0: Tree, t: Tree, d: nat, child: Name, name: Name, e: nat, ok: bool) {
    && d in t0.dirs && d in t.dirs && Found(t0.dirs[d], child).Some?
    && var i := Found(t0.dirs[d], child).value;
      && i < |t0.dirs[d]| && MovedEntry(t0.dirs[d], t.dirs[d], i, e) && GoesByNow(t0.dirs[d], t.dirs[d], i, e, name)
        && (ok <==> !DotSlot(t0.dirs[d][i]))
      && (ok ==> NamesAt(t0, d, i) && t == Moved(t0, d, t.dirs[d], i, e))
  }

  lemma {:induction false} MovedFields(t0: Tree, t: Tree, d: nat, child: Name, name: Name, e: nat)
    requires TreeOk(t0) && d in t0.dirs && Found(t0.dirs[d], child).Some?
      && Found(t0.dirs[d], child).value < |t0.dirs[d]|
    requires d in t.dirs && MovedEntry(t0.dirs[d], t.dirs[d], Found(t0.dirs[d], child).value, e)
    requires GoesByNow(t0.dirs[d], t.dirs[d], Found(t0.dirs[d], child).value, e, name)
    requires
      var slot := t0.dirs[d][Found(t0.dirs[d], child).value];
      t == t0.(dirs := t0.dirs[d := t.dirs[d]],
               refs := if DotSlot(slot) || ItemOf(slot).first == 0 then t0.refs
                 else t0.refs[ItemOf(slot).first := (d, e)])
    ensures EntryMoved(t0, t, d, child, name, e, TreeOk(t))
  {
    hide Tidy, ItemOf, EntryIn, TreeOk, Found, MovedEntry, GoesByNow;
    var i := Found(t0.dirs[d], child).value;
    FoundNamed(t0, d, child, i);
    if DotSlot(t0.dirs[d][i]) {
      DotNamed(t0, d, t.dirs[d], i, e);
    } else {
      MoveOk(t0, d, t.dirs[d], i, e);
    }
  }

  /** What fat_rename answers. */
  ghost function RenameCode(slots: seq<Slot>, child: Name, name: Name, stuck: bool): int {
    if !Legal(name) then -2
    else if Found(slots, name).Some? then -3
    else if Found(slots, child).None? || (!Is83(name) && NoEntryFor(slots, name, stuck)) then -1
    else 0
  }

  /** A file's chain is no directory. */
  lemma {:induction false} FileDirs(t: Tree, d: nat, i: nat)
    requires TreeOk(t) && NamesAt(t, d, i) && !ItemAt(t, d, i).isDir
    ensures ItemAt(t, d, i).first != 0 ==> t.dirs - {ItemAt(t, d, i).first} == t.dirs
  {
    hide TreeOk, NamesAt, ItemAt;
    NamedFacts(t, d, i);
  }

  /** The content of an entry with another chain and length. */
  function WithContent(d: Slot, first: nat, len: nat): Slot
    requires first < TWO32 && len < TWO32
  {
    d[..20] + Le16(first / TWO16) + d[22..26] + Le16(first % TWO16) + Le32(len)
  }

  lemma {:induction false} RewrittenContent(d: Slot, first: nat, len: nat)
    requires first < TWO32 && len < TWO32
    ensures
      var s := WithContent(d, first, len);
      && s[..20] == d[..20] && s[22..26] == d[22..26] && s[..12] == d[..12]
      && ItemOf(s) == Item(first, len, ItemOf(d).isDir)
  {
    var s := WithContent(d, first, len);
    assert s[20..22] == Le16(first / TWO16);
    assert s[26..28] == Le16(first % TWO16);
    assert s[28..32] == Le32(len);
    RdLe16(s, 20, first / TWO16);
    RdLe16(s, 26, first % TWO16);
    RdLe32(s, 28, len);
    assert s[..12] == s[..20][..12] && d[..12] == d[..20][..12];
    assert s[11] == s[..12][11] == d[..12][11];
  }

  /** A new file: an entry at position e of directory d names the new chain k. */
  ghost predicate FileMade(t0: Tree, t: Tree, d: nat, child: Name, e: nat, k: nat, len: nat) {
    && FileLanded(t0, t, d, e, k, len) && GoesBy(t0.dirs[d], t.dirs[d], e, child, 0x20, Item(k, len, false))
  }

  /** The same, whatever its name. */
  ghost predicate FileLanded(t0: Tree, t: Tree, d: nat, e: nat, k: nat, len: nat) {
    && d in t0.dirs && d in t.dirs && k !in t0.heads && k != 0
    && AddedEntry(t0.dirs[d], t.dirs[d], e) && NamesAt(t, d, e) && ItemAt(t, d, e) == Item(k, len, false)
    && t == FileAdded(LooseAdded(t0, k), d, t.dirs[d], e, k)
  }

  /** An overwritten file: the entry at position i of directory d names chain k, and only its content changed. */
  ghost predicate FileReplaced(t0: Tree, t: Tree, d: nat, i: nat, k: nat, len: nat) {
    && NamesAt(t0, d, i) && d in t.dirs && i < |t.dirs[d]| && k != 0 && k !in t0.heads - {ItemAt(t0, d, i).first}
    && t.dirs[d] == t0.dirs[d][i := t.dirs[d][i]] && t.dirs[d][i][..12] == t0.dirs[d][i][..12]
    && NamesAt(t, d, i) && ItemAt(t, d, i) == Item(k, len, false)
    && t == Retargeted(t0, d, t.dirs[d], i, k)
  }

  /** Lookups after an entry was made at position e, if no entry had its name: the name and the alias lead to it,
      and every name that led somewhere still leads there. */
  ghost predicate GoesBy(a: seq<Slot>, c: seq<Slot>, e: nat, child: Name, attr: Byte, it: Item) {
    Found(a, Known(child)).None? ==> exists alias: Name :: Created(a, c, e, child, alias, attr, it)
  }

  /** The same after a rename. */
  ghost predicate GoesByNow(a: seq<Slot>, c: seq<Slot>, i: nat, e: nat, name: Name) {
    Found(a, Known(name)).None? ==> exists alias: Name :: Renamed(a, c, i, e, name, alias)
  }

  /** No entry can be made: the name is illegal, no alias is left, or no slots are and no cluster can
      be added. */
  ghost predicate NoEntryFor(slots: seq<Slot>, child: Name, stuck: bool) {
    !Legal(child) || NoAlias(slots, child) || (stuck && NoRoom(slots, SlotsOf(child)))
  }

  lemma {:induction false} NoneLeft(view: seq<nat>)
    ensures AllUsed(view) <==> |FreeEntries(view)| == 0
  {
    if |FreeEntries(view)| == 0 {
      assert forall c :: 2 <= c < |view| && view[c] == 0 ==> c in FreeEntries(view);
    }
  }

  lemma {:induction false} SizedLess(own: Owners, own': Owners, dirs: map<nat, seq<Slot>>, per: nat, k: nat)
    requires SizedDirs(own, dirs, per) && k !in dirs && own' == own - {k}
    ensures SizedDirs(own', dirs, per)
  {
  }

  lemma {:induction false} HitItem(slots: seq<Slot>, child: Name, hit: Hit)
    requires HitAt(slots, child, hit)
    ensures Found(slots, child) == Some(hit.at) && hit.at < |slots| && hit.item == ItemOf(slots[hit.at])
  {
    hide Found, ItemOf;
  }

  lemma {:induction false} SizedWith(own: Owners, own': Owners, dirs: map<nat, seq<Slot>>, per: nat, k: nat,
      chain: seq<nat>)
    requires SizedDirs(own, dirs, per) && k !in own && own' == own[k := ExfatSpace.Owner(chain, false)]
    ensures SizedDirs(own', dirs, per)
  {
  }

  lemma {:induction false} NewChainKept(t: Tree, own0: Owners, own1: Owners, own: Owners, d: nat, k: nat,
      chain: seq<nat>)
    requires TreeOk(t) && t.heads == own0.Keys && d in t.dirs && k !in own0
      && own1 == own0[k := ExfatSpace.Owner(chain, false)] && k != 0
    requires OwnKept(own1, own, d)
    ensures k != d && k in own && own[k] == ExfatSpace.Owner(chain, false) && own.Keys == own0.Keys + {k}
  {
    hide TreeOk;
    RootStays(t, k);
  }

  lemma {:induction false} FileFields(t0: Tree, t: Tree, d: nat, child: Name, s: seq<Slot>, e: nat, k: nat, len: nat)
    requires TreeOk(t0) && d in t0.dirs && k !in t0.heads && k != 0
    requires GoesBy(t0.dirs[d], s, e, child, ATTR_FILE, Item(k, len, false))
    requires AddedEntry(t0.dirs[d], s, e) && e < |s| && !DotSlot(s[e]) && s[e][11] == ATTR_FILE
    requires ItemOf(s[e]).first == k && ItemOf(s[e]).size == len
    requires t.root == t0.root && t.heads == t0.heads + {k} && t.dirs == t0.dirs[d := s] && t.loose == t0.loose
    requires t.refs == t0.refs[k := (d, e)] && t.depth == t0.depth
    ensures TreeOk(t) && FileMade(t0, t, d, child, e, k, len)
  {
    hide TreeOk, AddedEntry, ItemOf, FileLanded;
    FileLands(t0, t, d, s, e, k, len);
  }

  lemma {:induction false} FileLands(t0: Tree, t: Tree, d: nat, s: seq<Slot>, e: nat, k: nat, len: nat)
    requires TreeOk(t0) && d in t0.dirs && k !in t0.heads && k != 0
    requires AddedEntry(t0.dirs[d], s, e) && e < |s| && !DotSlot(s[e]) && s[e][11] == ATTR_FILE
    requires ItemOf(s[e]).first == k && ItemOf(s[e]).size == len
    requires t.root == t0.root && t.heads == t0.heads + {k} && t.dirs == t0.dirs[d := s] && t.loose == t0.loose
    requires t.refs == t0.refs[k := (d, e)] && t.depth == t0.depth
    ensures TreeOk(t) && FileLanded(t0, t, d, e, k, len)
  {
    hide Tidy, AddedEntry, ItemOf, EntryIn, TreeOk, DotsOk;
    RootStays(t0, k);
    LooseAddOk(t0, k);
    EntryItem(s, e, ATTR_FILE, Item(k, len, false));
    AddedIn(t0.dirs[d], s, e);
    FileAddOk(LooseAdded(t0, k), d, s, e, k);
    assert t0.loose + {k} - {k} == t0.loose;
    assert t == FileAdded(LooseAdded(t0, k), d, s, e, k);
  }

  /** An entry that a name leads to, and that is no directory, names what it should. */
  lemma {:induction false} FoundNamed(t: Tree, d: nat, child: Name, i: nat)
    requires TreeOk(t) && d in t.dirs && Found(t.dirs[d], child) == Some(i) && i < |t.dirs[d]|
    ensures EntryIn(t.dirs[d], i) && (DotSlot(t.dirs[d][i]) ==> ItemOf(t.dirs[d][i]).isDir)
    ensures !DotSlot(t.dirs[d][i]) ==> NamesAt(t, d, i) && ItemAt(t, d, i) == ItemOf(t.dirs[d][i]) && NameOk(t, d, i)
  {
    hide Found, Tidy, ItemOf, TreeOk;
    FoundSlot(t.dirs[d], child);
    DirFacts(t, d);
    if !DotSlot(t.dirs[d][i]) {
      EntryNamed(t, d, i);
    }
  }

  lemma {:induction false} ReleaseGain(table: Table, f: nat)
    requires table.Ready() && f in table.own
    ensures table.copies != []
    ensures |FreeEntries(ExfatSpace.FreedFat(table.Chains(),
      table.own[f].chain))| == |FreeEntries(table.Chains())| + |table.own[f].chain|
  {
    hide View, FreeEntries, LinksIn;
    OwnedChain(table.Chains(), table.own, table.at, f);
    ChainUsed(table.Chains(), table.own[f].chain);
    FreeGained(table.Chains(), table.own[f].chain);
  }

  lemma {:induction false} ChainUsed(view: seq<nat>, chain: seq<nat>)
    requires IsChain(view, chain)
    ensures forall i :: 0 <= i < |chain| ==> 2 <= chain[i] < |view| && view[chain[i]] != 0
  {
    forall i | 0 <= i < |chain|
      ensures view[chain[i]] != 0
    {
      if i + 1 < |chain| {
        assert view[chain[i]] == chain[i + 1];
      }
    }
  }

  lemma {:induction false} NoZero(t: Tree)
    requires TreeOk(t)
    ensures 0 !in t.heads
  {
    hide NamesOk, RefOk, DirOk;
  }

  /** With its chain gone an entry that is left makes the tree wrong. */
  lemma {:induction false} DanglingBad(t0: Tree, t: Tree, d: nat, i: nat)
    requires TreeOk(t0) && NamesAt(t0, d, i) && t == t0.(heads := t0.heads - {ItemAt(t0, d, i).first})
    ensures TreeOk(t) <==> ItemAt(t0, d, i).first == 0
  {
    hide Tidy, DotsOk, EntryIn, ItemOf, DirOk, RefOk;
    if ItemAt(t0, d, i).first == 0 {
      NoZero(t0);
      assert t.heads == t0.heads;
      assert t == t0;
    } else {
      assert NamesAt(t, d, i) && !NameOk(t, d, i);
    }
  }

  lemma {:induction false} SizedSame(own: Owners, dirs: map<nat, seq<Slot>>, per: nat, d: nat, b: seq<Slot>)
    requires SizedDirs(own, dirs, per) && d in dirs && |b| == |dirs[d]|
    ensures SizedDirs(own, dirs[d := b], per)
  {
  }

  lemma {:induction false} ReplacedFields(t0: Tree, t: Tree, d: nat, i: nat, slot: Slot, b: seq<Slot>, k: nat, len: nat)
    requires TreeOk(t0) && NamesAt(t0, d, i) && !ItemAt(t0, d, i).isDir && i < |t0.dirs[d]|
      && b == t0.dirs[d][i := slot]
    requires slot[..12] == t0.dirs[d][i][..12] && ItemOf(slot) == Item(k, len, false)
    requires k != 0 && k !in t0.heads - {ItemAt(t0, d, i).first}
    requires t.root == t0.root && t.heads == t0.heads - {ItemAt(t0, d, i).first} + {k} && t.dirs == t0.dirs[d := b]
    requires t.loose == t0.loose && t.refs == (t0.refs - {ItemAt(t0, d, i).first})[k := (d, i)] && t.depth == t0.depth
    ensures TreeOk(t) && FileReplaced(t0, t, d, i, k, len)
  {
    hide Tidy, ItemOf, TreeOk, DotsOk, EntryIn, Live, IsShort;
    var f := ItemAt(t0, d, i).first;
    if f != 0 {
      NamedFacts(t0, d, i);
    }
    RootHead(t0, f);
    RetargetOk(t0, d, i, slot, k);
    DirFacts(t0, d);
    RewrittenIn(t0.dirs[d], i, slot);
    assert t == Retargeted(t0, d, b, i, k);
    assert slot[0] == slot[..12][0] == t0.dirs[d][i][..12][0];
  }

  lemma {:induction false} RootHead(t: Tree, f: nat)
    requires TreeOk(t) && (f != 0 ==> f != t.root)
    ensures t.root == 0 || t.root in t.heads - {f}
  {
    hide NamesOk, RefOk, DirOk;
  }

  function ChainSize(own: Owners, k: nat): nat { if k in own then |own[k].chain| else 0 }

  lemma {:induction false} LinkUsed(table: Table, k: nat)
    requires table.Ready() && k in table.own && table.own[k].chain != []
    ensures
      var last := table.own[k].chain[|table.own[k].chain| - 1];
      table.copies != [] && last < |table.Chains()| && table.Chains()[last] != 0
  {
    hide View, Norm;
    OwnedChain(table.Chains(), table.own, table.at, k);
  }

  function Up(t: Tree, d: nat): nat { if d == t.root then 0 else d }

  /** A new directory: an entry at position e of directory d names the new chain c, which holds the dot
      entries; nothing else has changed. */
  ghost predicate DirMade(t0: Tree, t: Tree, per: nat, d: nat, child: Name, e: nat, c: nat) {
    && d in t0.dirs && d in t.dirs && GoesBy(t0.dirs[d], t.dirs[d], e, child, 0x10, Item(c, 0, false))
      && d in t0.depth && c !in t0.heads && c != 0 && c < TWO32 && per >= 2 && d < TWO32
    && AddedEntry(t0.dirs[d], t.dirs[d], e) && NamesAt(t, d, e) && ItemAt(t, d, e) == Item(c, 0, true)
    && t == DirAdded(LooseAdded(t0, c), d, t.dirs[d], e, c, DotSlots(per, c, Up(t0, d)))
  }

  lemma {:induction false} MkdirFields(t0: Tree, t: Tree, per: nat, d: nat, child: Name, s: seq<Slot>, e: nat, k: nat,
      up: nat)
    requires TreeOk(t0) && d in t0.dirs && k !in t0.heads && k != 0 && k < TWO32 && up == Up(t0, d) && d < TWO32
      && per >= 2
    requires AddedEntry(t0.dirs[d], s, e) && e < |s| && !DotSlot(s[e]) && s[e][11] == ATTR_SUBDIR
    requires ItemOf(s[e]).first == k && ItemOf(s[e]).size == 0 && d in t0.depth
      && GoesBy(t0.dirs[d], s, e, child, ATTR_SUBDIR, Item(k, 0, false))
    requires t.root == t0.root && t.heads == t0.heads + {k} && t.dirs == t0.dirs[d := s][k := DotSlots(per, k, up)]
      && t.loose == t0.loose
    requires t.refs == t0.refs[k := (d, e)] && t.depth == t0.depth[k := t0.depth[d] + 1]
    ensures TreeOk(t) && DirMade(t0, t, per, d, child, e, k)
  {
    hide Tidy, AddedEntry, ItemOf, DotSlots, EntryIn, GoesBy, TreeOk, DotsOk;
    MkdirNames(t0, per, d, s, e, k, up);
    assert t0.loose + {k} - {k} == t0.loose;
    assert t == DirAdded(LooseAdded(t0, k), d, s, e, k, DotSlots(per, k, up));
  }

  /** A new directory and its entry fit into the tree. */
  lemma {:induction false} MkdirNames(t0: Tree, per: nat, d: nat, s: seq<Slot>, e: nat, k: nat, up: nat)
    requires TreeOk(t0) && d in t0.dirs && k !in t0.heads && k != 0 && k < TWO32 && d < TWO32 && up == Up(t0, d)
      && per >= 2
    requires AddedEntry(t0.dirs[d], s, e) && e < |s| && !DotSlot(s[e]) && s[e][11] == ATTR_SUBDIR
    requires ItemOf(s[e]).first == k && ItemOf(s[e]).size == 0
    ensures d in t0.depth && k != d && k !in t0.loose && k !in t0.dirs
    ensures
      var t := DirAdded(LooseAdded(t0, k), d, s, e, k, DotSlots(per, k, up));
      TreeOk(t) && NamesAt(t, d, e) && ItemAt(t, d, e) == Item(k, 0, true)
  {
    hide Tidy, AddedEntry, ItemOf, DotSlots, EntryIn, GoesBy, TreeOk, Bare, DotsOk;
    DirFacts(t0, d);
    RootStays(t0, k);
    LooseAddOk(t0, k);
    DotSlotsOk(per, k, up);
    EntryItem(s, e, ATTR_SUBDIR, Item(k, 0, true));
    AddedIn(t0.dirs[d], s, e);
    DirAddOk(LooseAdded(t0, k), d, s, e, k, DotSlots(per, k, up));
  }

  /** The open stream does not notice a new chain and a directory that grows. */
  lemma {:induction false} StreamStays(t: Tree, own0: Owners, own1: Owners, own: Owners, d: nat, first: nat,
      active: bool)
    requires TreeOk(t) && d in t.dirs && OwnKept(own1, own, d) && (forall k <- own0 :: k in own1 && own1[k] == own0[k])
    requires active && first != 0 && first in own0 ==> first in t.loose
    ensures own.Keys == own1.Keys
    ensures active && first != 0 && first in own0 ==> first in own && own[first] == own0[first]
  {
    hide TreeOk;
    HeadsIn(t);
  }

  lemma {:induction false} EntryItem(slots: seq<Slot>, e: nat, attr: Byte, it: Item)
    requires e < |slots| && slots[e][11] == attr && ItemOf(slots[e]).first == it.first
      && ItemOf(slots[e]).size == it.size
    requires var a: nat := attr; it.isDir == (a / 16 % 2 == 1)
    ensures ItemOf(slots[e]) == it
  {
  }

  lemma {:induction false} NewSized(own: Owners, own': Owners, dirs: map<nat, seq<Slot>>, per: nat, d: nat, k: nat,
      cs: seq<Slot>)
    requires SizedDirs(own', dirs, per) && OwnKept(own, own', d) && k != d && k in own && |own[k].chain| == 1
      && |cs| == per
    ensures SizedDirs(own', dirs[k := cs], per)
  {
  }

  lemma {:induction false} AddedIn(a: seq<Slot>, b: seq<Slot>, e: nat)
    requires AddedEntry(a, b, e)
    ensures EntryIn(b, e)
  {
    hide Tidy, EntryIn;
  }

  lemma {:induction false} BigEnough(per: nat, total: nat, heap: seq<seq<Slot>>)
    requires SlotSized(per, total, heap)
    ensures per >= 16
  {
  }

  lemma {:induction false} RootStays(t: Tree, k: nat)
    requires TreeOk(t) && k !in t.heads && k != 0
    ensures k != t.root && k !in t.dirs && k !in t.loose
  {
    hide Tidy, DotsOk, EntryIn, NamesOk, RefOk;
    assert forall x <- t.dirs :: DirOk(t, x);
  }

  lemma {:induction false} SizedMore(own: Owners, own': Owners, dirs: map<nat, seq<Slot>>, per: nat, k: nat)
    requires SizedDirs(own, dirs, per) && k !in own && own' == own[k := ExfatSpace.Owner([k], false)]
    ensures SizedDirs(own', dirs, per)
  {
  }

  lemma {:induction false} DirRange(table: Table, t: Tree, d: nat)
    requires table.Ready() && TreeOk(t) && d in t.dirs && t.heads <= table.own.Keys
    ensures d == t.root || 2 <= d < table.total
  {
    hide TreeOk, Tidy, DotsOk, View, Norm, LinksIn;
    DirIn(t, d);
    if d != t.root {
      OwnedChain(table.Chains(), table.own, table.at, d);
    }
  }

  /** First clusters are numbers of the table. */
  lemma {:induction false} InTable(table: Table, t: Tree, d: nat)
    requires table.Ready() && TreeOk(t) && d in t.dirs && t.heads <= table.own.Keys
    ensures d < TWO32 && forall k <- table.own :: k < TWO32
  {
    hide Tidy, DotsOk, EntryIn, NamesOk, RefOk, View, Norm, LinksIn;
    assert DirOk(t, d);
    OwnersInTable(table);
  }

  lemma {:induction false} OwnersInTable(table: Table)
    requires table.Ready()
    ensures forall k <- table.own :: k < TWO32
  {
    forall k | k in table.own
      ensures k < TWO32
    {
      OwnedChain(table.Chains(), table.own, table.at, k);
    }
  }

  /** After one directory has been written back, all directories still fill their chains. */
  lemma {:induction false} SizedBack(own: Owners, own': Owners, dirs: map<nat, seq<Slot>>, per: nat, d: nat, last: nat,
      slots: seq<Slot>)
    requires SizedDirs(own, dirs, per) && OwnKept(own, own', d) && d in dirs
      && (d == 0 || Backed(own', d, 0, last, |slots|, per))
    ensures SizedDirs(own', dirs[d := slots], per)
  {
  }
}
