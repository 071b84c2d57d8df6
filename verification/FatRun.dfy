/** Whole runs on a FAT volume: after any sequence of operations every used entry of the allocation table
    belongs to exactly one chain, and every chain to exactly one entry. */
module FatRun {
  import Arith
  import opened Bytes
  import opened ExfatSpace
  import opened FatNames
  import opened FatTable
  import opened FatDir
  import opened FatTree
  import opened FatVolume

  // ---- Who owns what ------------------------------------------------------------------------------

  ghost predicate InChain(own: Owners, c: nat, k: nat) { k in own && c in own[k].chain }

  /** An entry is in use exactly when it belongs to a chain, and then to one only. */
  lemma {:induction false} UsedOwned(v: Volume, c: nat)
    requires v.Valid() && 2 <= c < v.table.total
    ensures v.table.copies != [] && |v.table.Chains()| == v.table.total
    ensures v.table.Chains()[c] != 0 <==> exists k :: InChain(v.table.own, c, k)
    ensures forall k, l :: InChain(v.table.own, c, k) && InChain(v.table.own, c, l) ==> k == l
  {
    hide TreeOk, View, SizedDirs, SlotSized, OwnersOk, LinksIn;
    var own, at := v.table.own, v.table.at;
    if v.table.Chains()[c] != 0 {
      assert c in at && at[c].0 in own && own[at[c].0].chain[at[c].1] == c;
      assert InChain(own, c, at[c].0);
    }
    forall k | InChain(own, c, k)
      ensures c in at && at[c].0 == k
    {
      var i :| 0 <= i < |own[k].chain| && own[k].chain[i] == c;
      assert own[k].chain[i] in at;
    }
  }

  ghost predicate NamedBy(t: Tree, k: nat, d: nat, i: nat) { NamesAt(t, d, i) && ItemAt(t, d, i).first == k }

  /** A chain is the root's, the open stream's, or named by exactly one live entry, whose directory bit
      says whether it is a directory. */
  lemma {:induction false} ChainNamed(v: Volume, k: nat)
    requires v.Valid() && k in v.table.own
    ensures k == v.root || k in v.Loose() <==> forall d: nat, i: nat :: !NamedBy(v.Names(), k, d, i)
    ensures forall d: nat, i: nat, e: nat, j: nat ::
      NamedBy(v.Names(), k, d, i) && NamedBy(v.Names(), k, e, j) ==> d == e && i == j
    ensures forall d: nat, i: nat :: NamedBy(v.Names(), k, d, i) ==> (ItemAt(v.Names(), d, i).isDir <==> k in v.dirs)
  {
    hide TreeOk, EntryIn, ItemOf;
    var t := v.Names();
    HeadsIn(t);
    if k in t.refs {
      RefKept(t, k);
      assert NamedBy(t, k, t.refs[k].0, t.refs[k].1);
    }
    forall d: nat, i: nat | NamedBy(t, k, d, i)
      ensures k in t.refs && t.refs[k] == (d, i) && k != t.root && k !in t.loose
        && (ItemAt(t, d, i).isDir <==> k in t.dirs)
    {
      NamedFacts(t, d, i);
    }
  }

  /** What a live entry names is a chain of the table, or nothing. */
  lemma {:induction false} EntryOwned(v: Volume, d: nat, i: nat)
    requires v.Valid() && NamesAt(v.Names(), d, i)
    ensures ItemAt(v.Names(), d, i).first == 0 || ItemAt(v.Names(), d, i).first in v.table.own
    ensures ItemAt(v.Names(), d, i).isDir ==> ItemAt(v.Names(), d, i).first in v.dirs
  {
    NamedFacts(v.Names(), d, i);
    hide TreeOk, NamesAt, ItemAt;
  }

  ghost predicate NamedOnce(t: Tree, k: nat) {
    && (exists d: nat, i: nat :: NamedBy(t, k, d, i))
    && forall d: nat, i: nat, e: nat, j: nat :: NamedBy(t, k, d, i) && NamedBy(t, k, e, j) ==> d == e && i == j
  }

  /** All copies of the table agree; its entries in use are those of the chains, each in one chain only; and
      every chain is the root's, the open stream's, or named by exactly one live entry. */
  ghost predicate Owned(v: Volume)
    reads v, v.table
  {
    && v.table.copies != [] && (forall f :: 0 <= f < |v.table.copies| ==> v.table.copies[f] == v.table.copies[0])
    && (forall c :: 2 <= c < |v.table.Chains()| ==>
          (v.table.Chains()[c] != 0 <==> exists k :: InChain(v.table.own, c, k)))
    && (forall c: nat, k: nat, l: nat ::
          2 <= c < |v.table.Chains()| && InChain(v.table.own, c, k) && InChain(v.table.own, c, l) ==> k == l)
    && (forall k <- v.table.own :: k == v.root || k in v.Loose() || NamedOnce(v.Names(), k))
  }

  lemma {:induction false} ValidOwned(v: Volume)
    requires v.Valid()
    ensures Owned(v)
  {
    hide TreeOk, View, NamedBy, InChain;
    TableSize(v.table);
    forall c: nat | 2 <= c < v.table.total
      ensures v.table.Chains()[c] != 0 <==> exists k :: InChain(v.table.own, c, k)
    {
      UsedOwned(v, c);
    }
    forall c: nat, k: nat, l: nat | 2 <= c < v.table.total && InChain(v.table.own, c, k) && InChain(v.table.own, c, l)
      ensures k == l
    {
      UsedOwned(v, c);
    }
    forall k | k in v.table.own && k != v.root && k !in v.Loose()
      ensures NamedOnce(v.Names(), k)
    {
      ChainNamed(v, k);
    }
  }

  // ---- A new volume ----------------------------------------------------------------------------------

  /** A formatted FAT16 volume with an empty root is in order, so runs have somewhere to start. */
  method Blank16(sectors: nat, copies: nat, perCluster: nat, rootEntries: nat, heap: seq<seq<Slot>>) returns (v: Volume)
    requires copies > 0 && sectors * PerSector(Fat16) <= 0xFFF8
      && SlotSized(perCluster, sectors * PerSector(Fat16), heap)
    ensures fresh(v) && fresh(v.table) && v.Valid() && v.root == 0 && !v.wsActive
    ensures v.dirs == map[0 := Zeros(rootEntries)] && v.table.own == map[]
  {
    hide SlotSized, Zeros, Table.Ready;
    var table := new Table.Formatted(Fat16, sectors, copies);
    var dirs: map<nat, seq<Slot>> := map[0 := Zeros(rootEntries)];
    BlankTree(dirs[0]);
    v := new Volume(table, perCluster, 0, heap, dirs, map[], map[0 := 0]);
  }

  lemma {:induction false} BlankTree(slots: seq<Slot>)
    requires AllZero(slots)
    ensures TreeOk(Tree(0, {}, map[0 := slots], map[], {}, map[0 := 0]))
  {
    assert forall i: nat :: !EntryIn(slots, i);
    assert forall k: nat :: k <= |slots| ==> Block(slots, k) == 0;
  }

  // ---- Runs ------------------------------------------------------------------------------------------

  datatype Op =
    | Write(dir: nat, child: Name, len: nat)
    | MakeDir(dir: nat, child: Name)
    | Remove(dir: nat, child: Name)
    | Move(dir: nat, child: Name, name: Name)
    | Open(dir: nat, child: Name)
    | Give(bytes: nat)
    | Close(commit: bool, shown: seq<Slot>)

  /** What the driver expects of its callers. */
  predicate Proper(op: Op) {
    match op
    case Write(_, child, len) => Ascii(child) && len < TWO32
    case MakeDir(_, child) => Ascii(child)
    case Remove(_, _) => true
    case Move(_, _, name) => Ascii(name)
    case Open(_, child) => Ascii(child)
    case Give(_) => true
    case Close(_, _) => true
  }

  /** What the outcome of an operation depends on. */
  datatype Snap = Snap(t: Tree, own: Owners, at: Places, free: nat, per: nat, writing: bool, dir: nat, name: Name,
                       first: nat, waiting: nat, total: nat)

  ghost function Now(v: Volume): Snap
    requires v.Valid()
    reads v, v.table
  {
    Mounted(v);
    Snap(v.Names(), v.table.own, v.table.at, |FreeEntries(v.table.Chains())|, v.perCluster, v.wsActive, v.wsDir,
      v.wsName, v.table.wsFirst, v.wsBuffered, v.wsTotal)
  }

  /** The operations that leave the volume wrong: an overwrite that runs full after the old chain is
      released; the removal of a dot entry, or of a directory with files that the walk does not see; a dot
      entry renamed; a stream committed to a removed directory, unless it is refused or another directory
      has taken over the cluster. */
  ghost predicate Harms(s: Snap, op: Op) {
    match op
    case Write(d, child, len) =>
      && d in s.t.dirs && LeadsToFile(s.t.dirs[d], child) && s.per > 0
      && s.free + ChainSize(s.own, FirstOf(s.t.dirs[d], child)) < ClustersFor(len, SLOT_BYTES * s.per)
    case MakeDir(_, _) => false
    case Remove(d, child) =>
      && d in s.t.dirs && s.per > 0 && DeleteCode(s.t, s.per, d, child) == 0
      && var slot := SlotOf(s.t.dirs[d], child);
        if DotSlot(slot) then ItemOf(slot).first != 0
        else ItemOf(slot).isDir && ItemOf(slot).first in s.t.dirs && !Unlinked(s.t.dirs[ItemOf(slot).first])
    case Move(d, child, name) =>
      && d in s.t.dirs && RenameCode(s.t.dirs[d], child, name, d == 0 || s.free == 0) == 0
      && DotSlot(SlotOf(s.t.dirs[d], child))
    case Open(_, _) => false
    case Give(_) => false
    case Close(commit, shown) =>
      && commit && s.writing && s.dir !in s.t.dirs && !Adopted(s.t.dirs, s.at, s.per, s.dir)
      && var need := if s.waiting > 0 || s.first == 0 then 1 else 0;
        s.free >= need && !NoEntryFor(SlotsFrom(s.t.dirs, s.at, s.per, s.dir, shown), s.name, s.dir == 0
          || s.free == need)
  }

  /** The slot a name leads to. */
  function SlotOf(slots: seq<Slot>, child: Name): Slot {
    var f := Found(slots, child);
    if f.Some? && f.value < |slots| then slots[f.value] else ZERO_SLOT
  }

  function FirstOf(slots: seq<Slot>, child: Name): nat { ItemOf(SlotOf(slots, child)).first }

  /** The name leads to a file with a chain. */
  predicate LeadsToFile(slots: seq<Slot>, child: Name) {
    Found(slots, child).Some? && !ItemOf(SlotOf(slots, child)).isDir && FirstOf(slots, child) != 0
  }

  // ---- What an operation does -----------------------------------------------------------------------

  predicate Same(a: Snap, b: Snap) { b.t == a.t && b.own == a.own }

  /** A new file, or a new chain for an old one, when free clusters and a free entry allow it. */
  ghost predicate DidWrite(a: Snap, b: Snap, d: nat, child: Name, len: nat)
    requires a.per > 0
  {
    if d !in a.t.dirs then Same(a, b)
    else
      var f, n := Found(a.t.dirs[d], child), ClustersFor(len, SLOT_BYTES * a.per);
      if f.None? then
        if a.free >= n && !NoEntryFor(a.t.dirs[d], child, d == 0 || a.free == n)
        then exists e, k :: FileMade(a.t, b.t, d, child, e, k, len) && ChainSize(b.own, k) == n
        else Same(a, b)
      else if ItemOf(SlotOf(a.t.dirs[d], child)).isDir then Same(a, b)
      else if a.free + ChainSize(a.own, FirstOf(a.t.dirs[d], child)) >= n
      then exists k :: FileReplaced(a.t, b.t, d, f.value, k, len) && ChainSize(b.own, k) == n
      else b.t.dirs == a.t.dirs && b.own == a.own
  }

  ghost predicate DidMkdir(a: Snap, b: Snap, d: nat, child: Name) {
    if d in a.t.dirs && a.free >= 1 && !NoEntryFor(a.t.dirs[d], child, d == 0 || a.free == 1)
    then exists e, c :: DirMade(a.t, b.t, a.per, d, child, e, c)
    else Same(a, b)
  }

  /** The entry and its long-name slots are marked, and its chain is released. */
  ghost predicate DidRemove(a: Snap, b: Snap, d: nat, child: Name)
    requires a.per > 0
  {
    if d !in a.t.dirs || DeleteCode(a.t, a.per, d, child) != 0 then Same(a, b)
    else
      var f := Found(a.t.dirs[d], child);
      && f.Some? && f.value < |a.t.dirs[d]| && d in b.t.dirs && b.t.dirs[d] == Marked(a.t.dirs[d], f.value)
      && b.own == a.own - {FirstOf(a.t.dirs[d], child)}
      && b.free == a.free + ChainSize(a.own, FirstOf(a.t.dirs[d], child))
  }

  ghost predicate DidMove(a: Snap, b: Snap, d: nat, child: Name, name: Name) {
    if d in a.t.dirs && RenameCode(a.t.dirs[d], child, name, d == 0 || a.free == 0) == 0
    then exists e :: EntryMoved(a.t, b.t, d, child, name, e, true)
    else Same(a, b)
  }

  /** A stream starts empty, and a file that was there is gone. */
  ghost predicate DidOpen(a: Snap, b: Snap, d: nat, child: Name) {
    if d !in a.t.dirs || a.writing || SLOT_BYTES * a.per > WS_BUFFER || LeadsToDir(a.t.dirs[d], child)
    then Same(a, b) && b.writing == a.writing
    else
      && b.writing && b.dir == d && b.name == child && b.first == 0 && b.total == 0
      && if Found(a.t.dirs[d], child).None? then Same(a, b)
         else FileRetired(a.t, b.t, a.own, b.own, d, Found(a.t.dirs[d], child).value)
  }

  /** The stream grows by these bytes, or is gone when the free clusters cannot hold them. */
  ghost predicate DidGive(a: Snap, b: Snap, n: nat) {
    if !a.writing then !b.writing && b.own == a.own
    else if HasRoom(a.free, SLOT_BYTES * a.per, a.waiting + n) then
      && b.writing && b.total == a.total + n && b.own - {b.first} == a.own - {a.first}
      && (a.first != 0 ==> b.first == a.first)
    else !b.writing && b.own == a.own - {a.first}
  }

  /** The stream is dropped, or becomes a file of its directory or of the one that took over its cluster. */
  ghost predicate DidClose(a: Snap, b: Snap, commit: bool, shown: seq<Slot>)
    requires a.per > 0
  {
    var need, t := if a.waiting > 0 || a.first == 0 then 1 else 0, LooseDropped(a.t, a.first);
    if !a.writing then Same(a, b)
    else if commit && a.free >= need
      && !NoEntryFor(SlotsFrom(a.t.dirs, a.at, a.per, a.dir, shown), a.name, a.dir == 0 || a.free == need)
    then
      && !b.writing && (a.dir in a.t.dirs || a.dir in a.at)
      && exists e, k :: ChainSize(b.own, k) == ClustersFor(a.total, SLOT_BYTES * a.per)
           && if a.dir in a.t.dirs then FileMade(t, b.t, a.dir, a.name, e, k, a.total % TWO32)
              else FileLanded(t, b.t, a.at[a.dir].0, e, k, a.total % TWO32)
    else !b.writing && b.t == t && b.own == a.own - {a.first}
  }

  /** What each operation does when it is harmless. */
  ghost predicate Does(a: Snap, b: Snap, op: Op)
    requires a.per > 0
  {
    match op
    case Write(d, child, len) => DidWrite(a, b, d, child, len)
    case MakeDir(d, child) => DidMkdir(a, b, d, child)
    case Remove(d, child) => DidRemove(a, b, d, child)
    case Move(d, child, name) => DidMove(a, b, d, child, name)
    case Open(d, child) => DidOpen(a, b, d, child)
    case Give(n) => DidGive(a, b, n)
    case Close(commit, shown) => DidClose(a, b, commit, shown)
  }

  /** One operation; directories that do not exist are refused. It leaves the volume in order if and only if it
      is harmless. */
  method Perform(v: Volume, op: Op) returns (code: int, safe: bool)
    requires v.Valid() && Proper(op)
    modifies v, v.table
    ensures safe <==> !Harms(old(Now(v)), op)
    ensures v.Valid() <==> safe
    ensures old(Now(v)).per > 0 && (safe ==> Does(old(Now(v)), Now(v), op))
    ensures |v.table.copies| == |old(v.table.copies)|
  {
    hide Volume.Valid, Now, DidWrite, DidMkdir, DidRemove, DidMove, DidOpen, DidGive, DidClose;
    NowMounted(v);
    code, safe := -1, true;
    match op
    case Write(d, child, len) => code, safe := PerformWrite(v, d, child, len);
    case MakeDir(d, child) => code := PerformMkdir(v, d, child);
    case Remove(d, child) => code, safe := PerformRemove(v, d, child);
    case Move(d, child, name) => code, safe := PerformMove(v, d, child, name);
    case Open(d, child) => code := PerformOpen(v, d, child);
    case Give(n) => code := PerformGive(v, n);
    case Close(commit, shown) => code, safe := PerformClose(v, commit, shown);
  }

  lemma {:induction false} NowMounted(v: Volume)
    requires v.Valid()
    ensures Now(v).per > 0
  {
    hide Volume.Valid;
    Mounted(v);
  }

  lemma {:induction false} StreamLen(v: Volume)
    requires v.Valid()
    ensures v.wsActive ==> v.wsLen == v.wsTotal % TWO32
  {
    hide TreeOk, Volume.Based;
  }

  method PerformMkdir(v: Volume, d: nat, child: Name) returns (code: int)
    requires v.Valid() && Ascii(child)
    modifies v, v.table
    ensures v.Valid() && |v.table.copies| == |old(v.table.copies)|
    ensures DidMkdir(old(Now(v)), Now(v), d, child)
  {
    hide Volume.Valid, View, FreeEntries, NoEntryFor, DirMade;
    Mounted(v);
    code := -1;
    if d in v.dirs {
      ghost var c, e;
      code, c, e := v.Mkdir(d, child);
    }
  }

  method PerformOpen(v: Volume, d: nat, child: Name) returns (code: int)
    requires v.Valid() && Ascii(child)
    modifies v, v.table
    ensures v.Valid() && |v.table.copies| == |old(v.table.copies)|
    ensures DidOpen(old(Now(v)), Now(v), d, child)
  {
    hide Volume.Valid, View, FreeEntries, FileRetired, LeadsToDir, Found;
    Mounted(v);
    code := -1;
    if d in v.dirs {
      code := v.StreamOpen(d, child);
    }
  }

  method PerformGive(v: Volume, n: nat) returns (code: int)
    requires v.Valid()
    modifies v, v.table
    ensures v.Valid() && |v.table.copies| == |old(v.table.copies)|
    ensures DidGive(old(Now(v)), Now(v), n)
  {
    hide Volume.Valid, View, FreeEntries, HasRoom;
    Mounted(v);
    code := v.Append(n);
  }

  method PerformClose(v: Volume, commit: bool, shown: seq<Slot>) returns (code: int, safe: bool)
    requires v.Valid()
    modifies v, v.table
    ensures safe <==> !Harms(old(Now(v)), Close(commit, shown))
    ensures v.Valid() <==> safe
    ensures |v.table.copies| == |old(v.table.copies)|
    ensures old(Now(v)).per > 0 && (safe ==> DidClose(old(Now(v)), Now(v), commit, shown))
  {
    hide LooseDropped, Volume.Valid, View, FreeEntries, NoEntryFor, SlotsFrom, FileMade, FileLanded, ClustersFor;
    NowMounted(v);
    StreamLen(v);
    Mounted(v);
    safe := true;
    var lost := false;
    if commit && v.wsActive && v.wsDir !in v.dirs {
      var found, o, j := FindHostOf(v);
      lost := !(found && Clear(v.dirs[o], j * v.perCluster));
    }
    ghost var e, k;
    code, e, k := v.StreamClose(commit, shown);
    safe := code != 0 || !lost;
  }

  method FindHostOf(v: Volume) returns (found: bool, o: nat, j: nat)
    requires v.Valid() && v.wsDir !in v.dirs
    ensures found <==> Hosted(v.dirs, v.table.at, v.wsDir)
    ensures found ==> v.table.at[v.wsDir] == (o, j) && o in v.dirs
  {
    hide TreeOk, Table.Ready, SizedDirs;
    found, o, j := v.FindHost(v.wsDir);
  }

  method PerformWrite(v: Volume, d: nat, child: Name, len: nat) returns (code: int, safe: bool)
    requires v.Valid() && Proper(Write(d, child, len))
    modifies v, v.table
    ensures safe <==> !Harms(old(Now(v)), Write(d, child, len))
    ensures v.Valid() <==> safe
    ensures |v.table.copies| == |old(v.table.copies)|
    ensures old(Now(v)).per > 0 && (safe ==> DidWrite(old(Now(v)), Now(v), d, child, len))
  {
    hide Volume.Valid, ItemOf, Found, View, FreeEntries, ClustersFor, FileMade, FileReplaced, NoEntryFor;
    NowMounted(v);
    code, safe := -1, true;
    if d in v.dirs {
      HitRange(v.dirs[d], child);
      Mounted(v);
      var old0 := LeadsToFile(v.dirs[d], child);
      if Found(v.dirs[d], child).None? {
        code := WriteFresh(v, d, child, len);
      } else {
        code := WriteOver(v, d, child, len);
      }
      safe := code == 0 || !old0;
    }
  }

  method WriteFresh(v: Volume, d: nat, child: Name, len: nat) returns (code: int)
    requires v.Valid() && Proper(Write(d, child, len)) && d in v.dirs && Found(v.dirs[d], child).None?
    modifies v, v.table
    ensures v.Valid() && |v.table.copies| == |old(v.table.copies)|
    ensures old(Now(v)).per > 0 && DidWrite(old(Now(v)), Now(v), d, child, len)
  {
    hide Volume.Valid, ItemOf, Found, View, FreeEntries, ClustersFor, FileMade, FileReplaced, NoEntryFor;
    NowMounted(v);
    Mounted(v);
    ghost var e, k;
    code, e, k := v.WriteFile(d, child, len);
  }

  method WriteOver(v: Volume, d: nat, child: Name, len: nat) returns (code: int)
    requires v.Valid() && Proper(Write(d, child, len)) && d in v.dirs && Found(v.dirs[d], child).Some?
    modifies v, v.table
    ensures |v.table.copies| == |old(v.table.copies)|
    ensures v.Valid() <==> code == 0 || !LeadsToFile(old(v.dirs)[d], child)
    ensures code == 0 || !LeadsToFile(old(v.dirs)[d], child) <==> !Harms(old(Now(v)), Write(d, child, len))
    ensures old(Now(v)).per > 0 && (v.Valid() ==> DidWrite(old(Now(v)), Now(v), d, child, len))
  {
    hide Volume.Valid, ItemOf, Found, View, FreeEntries, ClustersFor, FileMade, FileReplaced, NoEntryFor;
    NowMounted(v);
    Mounted(v);
    HitRange(v.dirs[d], child);
    NoZeroHead(v);
    ghost var own := v.table.own;
    ghost var e, k;
    code, e, k := v.WriteFile(d, child, len);
    assert own - {0} == own;
  }

  lemma {:induction false} NoZeroHead(v: Volume)
    requires v.Valid()
    ensures 0 !in v.table.own
  {
  }

  method PerformRemove(v: Volume, d: nat, child: Name) returns (code: int, safe: bool)
    requires v.Valid()
    modifies v, v.table
    ensures safe <==> !Harms(old(Now(v)), Remove(d, child))
    ensures v.Valid() <==> safe
    ensures |v.table.copies| == |old(v.table.copies)|
    ensures old(Now(v)).per > 0 && (safe ==> DidRemove(old(Now(v)), Now(v), d, child))
  {
    hide Marked, Volume.Valid, ItemOf, Found, View, FreeEntries;
    NowMounted(v);
    code, safe := -1, true;
    if d in v.dirs {
      HitRange(v.dirs[d], child);
      Mounted(v);
      var slot := SlotOf(v.dirs[d], child);
      var it := ItemOf(slot);
      var wrong := if DotSlot(slot) then it.first != 0
        else it.isDir && it.first in v.dirs && !Unlinked(v.dirs[it.first]);
      code := v.DeleteLocated(d, child);
      safe := code != 0 || !wrong;
    }
  }

  method PerformMove(v: Volume, d: nat, child: Name, name: Name) returns (code: int, safe: bool)
    requires v.Valid() && Proper(Move(d, child, name))
    modifies v, v.table
    ensures safe <==> !Harms(old(Now(v)), Move(d, child, name))
    ensures v.Valid() <==> safe
    ensures |v.table.copies| == |old(v.table.copies)|
    ensures old(Now(v)).per > 0 && (safe ==> DidMove(old(Now(v)), Now(v), d, child, name))
  {
    hide Volume.Valid, ItemOf, Found, View, FreeEntries, RenameCode, MovedEntry, AllUsed;
    NowMounted(v);
    code, safe := -1, true;
    if d in v.dirs {
      HitRange(v.dirs[d], child);
      Mounted(v);
      NoneLeft(v.table.Chains());
      var dot := DotSlot(SlotOf(v.dirs[d], child));
      ghost var e;
      code, e := v.Rename(d, child, name);
      safe := code != 0 || !dot;
    }
  }

  lemma {:induction false} HitRange(slots: seq<Slot>, child: Name)
    ensures Found(slots, child).Some? ==> Found(slots, child).value < |slots|
  {
  }

  lemma {:induction false} Mounted(v: Volume)
    requires v.Valid()
    ensures v.table.copies != [] && v.perCluster > 0 && v.ClusterBytes() > 0
  {
    hide TreeOk;
  }

  /** On clusters up to 16 KiB a removal does harm only when it is given the single dot of an empty directory. */
  lemma {:induction false} RemovalHarms(v: Volume, d: nat, child: Name)
    requires v.Valid() && v.perCluster <= SEEN && d in v.dirs
    ensures Harms(Now(v), Remove(d, child)) <==>
      d != 0 && Found(v.dirs[d], child).Some? && DotSlot(SlotOf(v.dirs[d], child))
      && Parse83(SlotOf(v.dirs[d], child)) == ONE_DOT && Bare(v.dirs[d])
  {
    hide TreeOk, Found, ItemOf, Tidy, EntryIn, Parse83, SeenEmpty, DotsOk;
    Mounted(v);
    HitRange(v.dirs[d], child);
    var t := v.Names();
    if Found(t.dirs[d], child).Some? {
      var i := Found(t.dirs[d], child).value;
      FoundNamed(t, d, child, i);
      ListedDir(t, d, i);
      var it := ItemOf(t.dirs[d][i]);
      if it.isDir {
        var g := Listed(t, it);
        SeenAll(t.dirs[g], if g == 0 then 1 else v.perCluster);
        if DotSlot(t.dirs[d][i]) {
          DotNames(t, d, i);
        } else {
          NamedFacts(t, d, i);
          assert Bare(t.dirs[g]) ==> Unlinked(t.dirs[g]);
        }
      }
    }
  }

  /** A dot entry is the single dot of its directory, or names a parent that holds more than dots. */
  lemma {:induction false} DotNames(t: Tree, d: nat, i: nat)
    requires TreeOk(t) && d in t.dirs && EntryIn(t.dirs[d], i) && i < |t.dirs[d]| && DotSlot(t.dirs[d][i])
    ensures
      var it := ItemOf(t.dirs[d][i]);
      && it.isDir
      && if Parse83(t.dirs[d][i]) == ONE_DOT then it.first == d && (d != 0 ==> Listed(t, it) == d)
         else it.first != 0 ==> Listed(t, it) in t.dirs && !Bare(t.dirs[Listed(t, it)])
  {
    hide TreeOk, ItemOf, Tidy, EntryIn, Parse83, Bare;
    DirFacts(t, d);
    DotAt(d, Above(t, d), t.dirs[d], i);
    if d != t.root {
      ParentHolds(t, d);
    } else if d in t.refs {
      RefKept(t, d);
    }
  }

  /** On larger clusters the walk can take a directory that holds a file for an empty one: the file
      lies behind 512 deleted entries. */
  lemma {:induction false} HiddenEntry(per: nat, file: Slot)
    requires per > SEEN && IsShort(file) && !DotSlot(file)
    ensures
      var slots := seq(SEEN, _ => Retired(file)) + [file] + Zeros(per - SEEN - 1);
      |slots| == per && Tidy(slots) && SeenEmpty(slots, per) && EntryIn(slots, SEEN) && !Bare(slots)
  {
    hide Zeros;
    var slots := seq(SEEN, _ => Retired(file)) + [file] + Zeros(per - SEEN - 1);
    assert forall i :: 0 <= i < SEEN ==> slots[i] == Retired(file);
    assert slots[SEEN] == file;
    assert forall i :: SEEN < i < per ==> slots[i] == Zeros(per - SEEN - 1)[i - SEEN - 1];
    RetiredSlot(file);
    assert forall i :: 0 <= i < |slots| ==> !IsLfn(slots[i]);
    assert EntryIn(slots, SEEN);
    forall k: nat | k <= |slots|
      ensures Block(slots, k) == 0
    {
    }
    assert forall i: nat :: EntryIn(slots, i) ==> i == SEEN;
    Arith.UniqueQuotient(SEEN, per, 0, SEEN);
  }

  /** Any sequence of operations, refusals and full volumes included. It stops only behind an operation that
      does harm, and `states` are those before each operation. */
  method Run(v: Volume, ops: seq<Op>) returns (done: nat, safe: bool, ghost states: seq<Snap>)
    requires v.Valid() && forall i :: 0 <= i < |ops| ==> Proper(ops[i])
    modifies v, v.table
    ensures v.Valid() <==> safe
    ensures done <= |ops| && |states| == done + 1 && states[0] == old(Now(v))
    ensures forall i :: 0 <= i < done ==> !Harms(states[i], ops[i])
    ensures forall i :: 0 <= i < done ==> states[i].per > 0 && Does(states[i], states[i + 1], ops[i])
    ensures safe ==> v.Valid() && Owned(v) && done == |ops| && states[done] == Now(v)
    ensures !safe ==> done < |ops| && Harms(states[done], ops[done])
    ensures |v.table.copies| == |old(v.table.copies)|
  {
    hide Volume.Valid, Proper, Owned, Harms, Now, Does;
    done, safe, states := 0, true, [Now(v)];
    while done < |ops|
      invariant done <= |ops| && v.Valid() && |v.table.copies| == |old(v.table.copies)|
      invariant |states| == done + 1 && states[0] == old(Now(v)) && states[done] == Now(v)
      invariant forall i :: 0 <= i < done ==> i < |ops| && !Harms(states[i], ops[i])
      invariant forall i :: 0 <= i < done ==> states[i].per > 0 && Does(states[i], states[i + 1], ops[i])
    {
      var code;
      code, safe := Perform(v, ops[done]);
      if !safe {
        return;
      }
      done, states := done + 1, states + [Now(v)];
    }
    ValidOwned(v);
  }

  /** A run on a formatted FAT16 volume. */
  method FreshRun(sectors: nat, copies: nat, perCluster: nat, rootEntries: nat, heap: seq<seq<Slot>>, ops: seq<Op>)
      returns (v: Volume, done: nat, safe: bool, ghost states: seq<Snap>)
    requires copies > 0 && sectors * PerSector(Fat16) <= 0xFFF8
      && SlotSized(perCluster, sectors * PerSector(Fat16), heap) && forall i :: 0 <= i < |ops| ==> Proper(ops[i])
    ensures done <= |ops| && |states| == done + 1 && forall i :: 0 <= i < done ==> !Harms(states[i], ops[i])
    ensures forall i :: 0 <= i < done ==> states[i].per > 0 && Does(states[i], states[i + 1], ops[i])
    ensures safe ==> v.Valid() && Owned(v) && done == |ops|
    ensures !safe ==> !v.Valid() && done < |ops| && Harms(states[done], ops[done])
  {
    hide Volume.Valid, Owned, Harms, Proper, SlotSized, Does;
    v := Blank16(sectors, copies, perCluster, rootEntries, heap);
    done, safe, states := Run(v, ops);
  }

  // ---- A stream whose directory is removed --------------------------------------------------------------

  /** Open a stream in an empty directory, remove the directory, commit an empty file. Unless the name cannot get
      an entry where the slots `shown` are, the stream's cluster stays in use and gets no name: the volume is
      wrong. A name such as the asterisk is refused, and leaves it in order. */
  method CommitRemoved(v: Volume, up: nat, child: Name, name: Name, shown: seq<Slot>) returns (code: int)
    requires v.Valid() && !v.wsActive && v.ClusterBytes() <= WS_BUFFER && v.perCluster > 0 && Ascii(name)
    requires up in v.dirs && DeleteCode(v.Names(), v.perCluster, up, child) == 0
    requires
      var slot := SlotOf(v.dirs[up], child);
      && !DotSlot(slot) && ItemOf(slot).isDir && ItemOf(slot).first in v.dirs && Bare(v.dirs[ItemOf(slot).first])
      && !LeadsToDir(v.dirs[ItemOf(slot).first], name)
    modifies v, v.table
    ensures code == 0 || code == -1
    ensures code == 0 ==> !NoEntryFor(shown, name, false)
    ensures code != 0 ==> NoEntryFor(shown, name, true)
    ensures v.Valid() <==> code != 0
  {
    hide Volume.Valid, View, FreeEntries, NoEntryFor, FileMade, FileLanded, ClustersFor, Found, ItemOf, EntryIn, Bare,
      LeadsToDir, DeleteCode;
    RemoveOpened(v, up, child, name);
    Mounted(v);
    ghost var e, k;
    code, e, k := v.StreamClose(true, shown);
    RoomFor(shown, name);
  }

  lemma {:induction false} RoomFor(slots: seq<Slot>, name: Name)
    ensures NoEntryFor(slots, name, false) ==> NoEntryFor(slots, name, true)
  {
    hide Legal, NoAlias, NoRoom, SlotsOf;
  }

  /** What the names of an empty directory's entry mean. */
  lemma {:induction false} EmptyDir(v: Volume, up: nat, child: Name, d: nat, name: Name)
    requires v.Valid() && up in v.dirs && v.perCluster > 0 && DeleteCode(v.Names(), v.perCluster, up, child) == 0
    requires d in v.dirs && Bare(v.dirs[d]) && !LeadsToDir(v.dirs[d], name)
    requires var slot := SlotOf(v.dirs[up], child); !DotSlot(slot) && ItemOf(slot).isDir && ItemOf(slot).first == d
    ensures Found(v.dirs[up], child).Some? && Found(v.dirs[up], child).value < |v.dirs[up]|
    ensures d != 0 && d in v.table.own && v.table.own[d].chain != [] && v.table.own[d].chain[0] == d
    ensures Found(v.dirs[d], name).None? && NoChains(v.Names(), d) && ExfatSpace.Placed(v.table.own, v.table.at)
  {
    hide TreeOk, Found, ItemOf, EntryIn, SizedDirs, SlotSized, LinksIn, View;
    HitRange(v.dirs[up], child);
    var t, i := v.Names(), Found(v.dirs[up], child).value;
    FoundNamed(t, up, child, i);
    NamedFacts(t, up, i);
    OwnedChain(v.table.Chains(), v.table.own, v.table.at, d);
    BareFound(t, d, name);
    PlacesOwned(v.table);
    hide Volume.Valid, DeleteCode, LeadsToDir;
    EntryRange(v.dirs[d]);
  }

  lemma {:induction false} BareFound(t: Tree, d: nat, name: Name)
    requires TreeOk(t) && d in t.dirs && Bare(t.dirs[d]) && !LeadsToDir(t.dirs[d], name)
    ensures Found(t.dirs[d], name).None?
  {
    hide TreeOk, Found, ItemOf, EntryIn;
    HitRange(t.dirs[d], name);
    if Found(t.dirs[d], name).Some? {
      FoundNamed(t, d, name, Found(t.dirs[d], name).value);
    }
  }

  /** A released first cluster is nobody's. */
  lemma {:induction false} Unhosted(v: Volume, own: Owners, at: Places, d: nat)
    requires v.Valid() && v.table.own == own - {d} && ExfatSpace.Placed(own, at) && d in own && own[d].chain != []
      && own[d].chain[0] == d
    ensures !Hosted(v.dirs, v.table.at, d)
  {
    PlacesOwned(v.table);
    hide Volume.Valid;
    assert at[d] == (d, 0);
    PlaceKept(own, at, v.table.own, v.table.at, d);
  }

  lemma {:induction false} PlaceKept(own: Owners, at: Places, own': Owners, at': Places, c: nat)
    requires ExfatSpace.Placed(own, at) && ExfatSpace.Placed(own', at')
    requires forall k <- own' :: k in own && own'[k] == own[k]
    ensures c in at' ==> c in at && at'[c] == at[c] && at'[c].0 in own'
  {
    if c in at' {
      assert own[at'[c].0].chain[at'[c].1] == c;
    }
  }

  /** The first two steps: the stream's directory is gone and its cluster is free. */
  method RemoveOpened(v: Volume, up: nat, child: Name, name: Name)
    requires v.Valid() && !v.wsActive && v.ClusterBytes() <= WS_BUFFER && v.perCluster > 0 && Ascii(name)
    requires up in v.dirs && DeleteCode(v.Names(), v.perCluster, up, child) == 0
    requires
      var slot := SlotOf(v.dirs[up], child);
      && !DotSlot(slot) && ItemOf(slot).isDir && ItemOf(slot).first in v.dirs && Bare(v.dirs[ItemOf(slot).first])
      && !LeadsToDir(v.dirs[ItemOf(slot).first], name)
    modifies v, v.table
    ensures v.Valid() && v.wsActive && v.wsName == name && v.wsDir !in v.dirs && v.wsDir != 0 && v.table.wsFirst == 0
    ensures !Hosted(v.dirs, v.table.at, v.wsDir) && v.table.copies != [] && |FreeEntries(v.table.Chains())| >= 1
  {
    hide Volume.Valid, View, FreeEntries, Found, ItemOf, EntryIn, Bare, LeadsToDir, DeleteCode, SeenEmpty;
    var d := ItemOf(SlotOf(v.dirs[up], child)).first;
    ghost var own, at := v.table.own, v.table.at;
    EmptyDir(v, up, child, d, name);
    var r := v.StreamOpen(d, name);
    Mounted(v);
    r := v.DeleteLocated(up, child);
    Mounted(v);
    Unhosted(v, own, at, d);
  }
}
