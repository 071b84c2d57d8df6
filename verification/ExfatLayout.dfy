/** How the tree lies on the device, and what a scanner reading the raw device finds. */
module ExfatLayout {
  import opened Bytes
  import opened ExfatNames
  import opened ExfatEntrySet
  import opened ExfatScan
  import opened ExfatSpace
  import opened ExfatHeap
  import opened ExfatTree

  /** Items of a directory and the entries they spell. */
  ghost predicate Reads(items: seq<Item>, dir: Dir) {
    && |items| == |dir| && ItemsOk(items)
    && forall i :: 0 <= i < |items| ==>
         (items[i].Live? <==> dir[i].Some?) && (items[i].Live? ==> EntryOf(items[i].ents) == dir[i].value)
  }

  /** Every live entry set carries its SetChecksum. */
  ghost predicate Checked(items: seq<Item>) {
    forall i :: 0 <= i < |items| ==> items[i].Live? ==> SetOk(items[i].ents)
  }

  lemma {:induction false} ReadsSize(items: seq<Item>, dir: Dir)
    requires Reads(items, dir)
    ensures |items| == |dir|
  {
  }

  type Layout = map<nat, seq<Item>>

  ghost predicate DirOk(heap: Heap, chain: seq<nat>, items: seq<Item>, dir: Dir) {
    InHeap(heap, chain) && DirHolds(heap, chain, items) && Reads(items, dir) && Checked(items)
  }

  ghost predicate LayoutOk(heap: Heap, t: Tree, lay: Layout) {
    && lay.Keys == t.dirs.Keys
    && forall k <- t.dirs :: k in t.own && DirOk(heap, t.own[k].chain, lay[k], t.dirs[k])
  }

  /** The volume invariant: space, names and layout agree. */
  ghost predicate Inv(geo: Geo, d: Disk, t: Tree, lay: Layout) {
    geo.Valid() && SpaceOk(geo, d, t.own, t.at) && RefsOk(geo, t) && LayoutOk(d.heap, t, lay)
  }

  lemma {:induction false} FindLookup(items: seq<Item>, dir: Dir, want: Name)
    requires Reads(items, dir)
    ensures Lookup(items, want) == Find(dir, want)
  {
    hide EntryOf, NameEq, ItemOk;
    if items != [] {
      FindLookup(items[1..], dir[1..], want);
    }
  }

  lemma {:induction false} ListingEntries(items: seq<Item>, dir: Dir)
    requires Reads(items, dir) && forall i :: 0 <= i < |dir| && dir[i].Some? ==> dir[i].value.name != []
    ensures Listing(items) == Entries(dir)
  {
    hide EntryOf, ItemOk;
    if items != [] {
      ListingEntries(items[1..], dir[1..]);
    }
  }

  // ---- The raw device --------------------------------------------------------

  /** The clusters a walker visits: it follows the FAT until a value that is no cluster. */
  ghost function WalkChain(fat: seq<nat>, c: nat, fuel: nat): (chain: seq<nat>)
    ensures forall i :: 0 <= i < |chain| ==> chain[i] < |fat|
    decreases fuel
  {
    if fuel == 0 || c < 2 || c >= EOC || c >= |fat| then [] else [c] + WalkChain(fat, fat[c], fuel - 1)
  }

  /** What the scanner reports for a name in the directory starting at cluster c. */
  ghost function RawLookup(x: Disk, c: nat, want: Name): ScanResult
    requires |x.fat| == |x.heap|
  {
    Scan(Idle, DirCells(x.heap, WalkChain(x.fat, c, MAX_CLUSTERS)), Some(want))
  }

  /** The entry a path leads to on the device as it is, whatever state it is in. */
  ghost function RawResolve(geo: Geo, x: Disk, path: Path): Option<Entry>
    requires |x.fat| == |x.heap|
    decreases |path|
  {
    if path == [] then None
    else
      var up := path[..|path| - 1];
      var c := if up == [] then Some(geo.root)
               else var e := RawResolve(geo, x, up);
                    if e.Some? && e.value.isDir then Some(e.value.first) else None;
      if c == None then None
      else
        var r := RawLookup(x, c.value, path[|path| - 1]);
        if r.Hit? then Some(r.found.entry) else None
  }

  /** The FAT links the chain's clusters in order; what follows the last one is open. */
  ghost predicate PathOf(fat: seq<nat>, chain: seq<nat>) {
    && chain != [] && |chain| <= MAX_CLUSTERS && |fat| <= MAX_CLUSTERS
    && (forall i :: 0 <= i < |chain| ==> 2 <= chain[i] < |fat|)
    && forall i :: 0 <= i < |chain| - 1 ==> fat[chain[i]] == chain[i + 1]
  }

  lemma {:induction false} WalkPrefix(fat: seq<nat>, chain: seq<nat>, fuel: nat)
    requires PathOf(fat, chain) && |chain| <= fuel
    ensures chain <= WalkChain(fat, chain[0], fuel)
  {
    if |chain| > 1 {
      WalkPrefix(fat, chain[1..], fuel - 1);
      assert chain == [chain[0]] + chain[1..];
    }
  }

  /** A well-ended chain is walked exactly. */
  lemma {:induction false} WalkExact(fat: seq<nat>, chain: seq<nat>, fuel: nat)
    requires PathOf(fat, chain) && |chain| < fuel && fat[chain[|chain| - 1]] >= EOC
    ensures WalkChain(fat, chain[0], fuel) == chain
  {
    if |chain| > 1 {
      WalkExact(fat, chain[1..], fuel - 1);
      assert chain == [chain[0]] + chain[1..];
    } else {
      assert WalkChain(fat, fat[chain[0]], fuel - 1) == [];
    }
  }

  /** A directory whose chain starts with the given clusters, which start with the given items. */
  ghost predicate ShowsItems(x: Disk, chain: seq<nat>, items: seq<Item>) {
    && PathOf(x.fat, chain) && |x.heap| == |x.fat| && ItemsOk(items)
    && var cells, n := DirCells(x.heap, chain), |AllSlots(items)|;
       n <= |cells| && SlotsOfCells(cells[..n]) == AllSlots(items)
  }

  ghost predicate SimilarAll(dir: Dir, dir': Dir) {
    |dir| == |dir'| && forall i :: 0 <= i < |dir| ==> Similar(dir[i], dir'[i])
  }

  ghost predicate ShowsDir(x: Disk, chain: seq<nat>, dir: Dir) {
    exists items, dir' :: ShowsItems(x, chain, items) && Reads(items, dir') && SimilarAll(dir, dir')
  }

  /** A device state in which every directory of the tree still shows all its entries. */
  ghost predicate Shows(x: Disk, t: Tree) {
    |x.heap| == |x.fat| && forall k <- t.dirs :: k in t.own && ShowsDir(x, t.own[k].chain, t.dirs[k])
  }

  lemma {:induction false} ScanPrefix(st: ScanState, a: seq<Cell>, b: seq<Cell>, want: Option<Name>)
    requires Scan(st, a, want).Hit?
    ensures Scan(st, a + b, want) == Scan(st, a, want)
    decreases |a|
  {
    hide Step, Wanted;
    assert (a + b)[1..] == a[1..] + b;
    var s := Step(st, a[0]).0;
    var f := Step(st, a[0]).1;
    if !(f.Some? && Wanted(f.value.entry, want)) {
      ScanPrefix(s, a[1..], b, want);
    }
  }

  lemma {:induction false} ItemsLookup(items: seq<Item>, cells: seq<Cell>, rest: seq<Cell>, want: Name)
    requires ItemsOk(items) && SlotsOfCells(cells) == AllSlots(items) && Lookup(items, want) < |items|
    ensures
      var r := Scan(Idle, cells + rest, Some(want));
      r.Hit? && r.found.entry == EntryOf(items[Lookup(items, want)].ents)
  {
    hide Run, Founds, EntryOf, Lookup;
    RunItems(items, cells);
    ScanRun(Idle, cells, Some(want));
    FirstWantedLookup(items, LocsOf(cells), want);
    ScanPrefix(Idle, cells, rest, Some(want));
  }

  lemma {:induction false} RawFindsItem(x: Disk, chain: seq<nat>, items: seq<Item>, want: Name)
    requires ShowsItems(x, chain, items) && Lookup(items, want) < |items|
    ensures
      var r := RawLookup(x, chain[0], want);
      r.Hit? && r.found.entry == EntryOf(items[Lookup(items, want)].ents)
  {
    hide Scan, EntryOf, Lookup, ClusterCells, WalkChain, PathOf, DirCells, AllSlots, ItemOk;
    ShownPath(x, chain, items);
    var walk := WalkChain(x.fat, chain[0], MAX_CLUSTERS);
    WalkPrefix(x.fat, chain, MAX_CLUSTERS);
    assert walk == chain + walk[|chain|..];
    DirCellsConcat(x.heap, chain, walk[|chain|..]);
    var cells, n := DirCells(x.heap, chain), |AllSlots(items)|;
    var tail := DirCells(x.heap, walk[|chain|..]);
    assert cells + tail == cells[..n] + (cells[n..] + tail);
    ItemsLookup(items, cells[..n], cells[n..] + tail, want);
  }

  lemma {:induction false} ShownPath(x: Disk, chain: seq<nat>, items: seq<Item>)
    requires ShowsItems(x, chain, items)
    ensures chain != [] && |chain| <= MAX_CLUSTERS && InHeap(x.heap, chain)
  {
    hide DirCells, AllSlots;
  }

  /** A name of a shown directory is found on the raw device, with its first cluster, kind, flag
      and, for files, length. */
  lemma {:induction false} RawFinds(x: Disk, chain: seq<nat>, dir: Dir, want: Name)
    requires ShowsDir(x, chain, dir) && Find(dir, want) < |dir| && |x.heap| == |x.fat|
    ensures chain != []
    ensures
      var r := RawLookup(x, chain[0], want);
      r.Hit? && Similar(dir[Find(dir, want)], Some(r.found.entry))
  {
    hide EntryOf, Scan, NameEq, RawLookup;
    var items, dir' :| ShowsItems(x, chain, items) && Reads(items, dir') && SimilarAll(dir, dir');
    FindKept(dir, dir', |dir|, want);
    FindLookup(items, dir', want);
    RawFindsItem(x, chain, items, want);
  }

  /** In any device state that shows the tree, every path of the tree resolves on the raw device. */
  lemma {:induction false} RawResolves(geo: Geo, x: Disk, t: Tree, path: Path)
    requires RefsOk(geo, t) && Shows(x, t) && Resolve(geo, t, path).Some?
    requires forall k <- t.own :: t.own[k].chain != [] && t.own[k].chain[0] == k
    ensures
      var (d, i) := Resolve(geo, t, path).value;
      RawResolve(geo, x, path).Some? && Similar(t.dirs[d][i], RawResolve(geo, x, path))
    decreases |path|
  {
    hide ShowsDir, RawLookup, EntryOk, NameEq;
    var (d, i) := Resolve(geo, t, path).value;
    var up := path[..|path| - 1];
    if up != [] {
      RawResolves(geo, x, t, up);
    }
    assert ShowsDir(x, t.own[d].chain, t.dirs[d]);
    RawFinds(x, t.own[d].chain, t.dirs[d], path[|path| - 1]);
  }

  // ---- Facts the walkers rely on -----------------------------------------------

  lemma {:induction false} ChainFacts(geo: Geo, d: Disk, own: Owners, at: Places, k: nat)
    requires geo.Valid() && SpaceOk(geo, d, own, at) && k in own
    ensures
      var chain := own[k].chain;
      && chain != [] && chain[0] == k && |chain| <= geo.Total() && Distinct(chain)
      && InHeap(d.heap, chain) && Covers(d.heap, chain, geo.Slots())
      && (forall i :: 0 <= i < |chain| ==> 2 <= chain[i] < geo.Total())
      && (!own[k].contig ==> PathOf(d.fat, chain) && d.fat[chain[|chain| - 1]] >= EOC)
      && (own[k].contig ==> forall i :: 0 <= i < |chain| ==> chain[i] == k + i)
  {
    ChainBound(geo, d, own, at, k);
    assert OwnerOk(d.fat, own[k]);
    forall i, j | 0 <= i < j < |own[k].chain|
      ensures own[k].chain[i] != own[k].chain[j]
    {
      assert at[own[k].chain[i]] == (k, i) && at[own[k].chain[j]] == (k, j);
    }
  }

  lemma {:induction false} DirFacts(geo: Geo, d: Disk, t: Tree, lay: Layout, k: nat)
    requires Inv(geo, d, t, lay) && k in t.dirs
    ensures k in t.own && !t.own[k].contig && k in lay && k in t.depth && |d.fat| == |d.heap| == geo.Total()
    ensures
      var chain := t.own[k].chain;
      && chain != [] && chain[0] == k && |chain| <= geo.Total() < MAX_CLUSTERS && Distinct(chain)
      && InHeap(d.heap, chain) && Covers(d.heap, chain, geo.Slots())
      && PathOf(d.fat, chain) && d.fat[chain[|chain| - 1]] >= EOC
      && DirHolds(d.heap, chain, lay[k]) && Reads(lay[k], t.dirs[k]) && Checked(lay[k])
  {
    ChainFacts(geo, d, t.own, t.at, k);
    assert DirOk(d.heap, t.own[k].chain, lay[k], t.dirs[k]);
  }

  /** On a consistent volume the raw lookup is the tree's lookup, hits and misses alike. */
  lemma {:induction false} RawLookupExact(geo: Geo, d: Disk, t: Tree, lay: Layout, k: nat, want: Name)
    requires Inv(geo, d, t, lay) && k in t.dirs
    ensures
      var i := Find(t.dirs[k], want);
      var r := RawLookup(d, k, want);
      if i == |t.dirs[k]| then r.Miss? else r.Hit? && r.found.entry == t.dirs[k][i].value
  {
    hide Inv, Scan, EntryOf, NameEq, DirHolds, Reads, Checked, WalkChain, DirCells, Find, Lookup, Covers, PathOf,
      Placed, ItemOk;
    DirFacts(geo, d, t, lay, k);
    var chain := t.own[k].chain;
    WalkExact(d.fat, chain, MAX_CLUSTERS);
    DirLookup(d.heap, chain, lay[k], want);
    FindLookup(lay[k], t.dirs[k], want);
    HitEntry(lay[k], t.dirs[k], Find(t.dirs[k], want));
  }

  lemma {:induction false} HitEntry(items: seq<Item>, dir: Dir, i: nat)
    requires Reads(items, dir) && i <= |dir|
    ensures i < |dir| && dir[i].Some? ==>
      && items[i].Live? && |items[i].ents| >= 2
      && EntryOf(items[i].ents) == dir[i].value
  {
    if i < |dir| {
      assert ItemOk(items[i]);
    }
  }

  /** On a consistent volume a path resolves on the raw device exactly as it does in the tree. */
  lemma {:induction false} RawResolveExact(geo: Geo, d: Disk, t: Tree, lay: Layout, path: Path)
    requires Inv(geo, d, t, lay)
    ensures
      var r := Resolve(geo, t, path);
      RawResolve(geo, d, path) == if r.Some? then Some(EntAt(t, r.value.0, r.value.1)) else None
    decreases |path|
  {
    hide SpaceOk, RefsOk, LayoutOk, RawLookup, EntryOk;
    if path != [] {
      var up := path[..|path| - 1];
      if up != [] {
        RawResolveExact(geo, d, t, lay, up);
      }
      var c := ResolveDir(geo, t, up);
      if c.Some? {
        RawLookupExact(geo, d, t, lay, c.value, path[|path| - 1]);
      }
    }
  }
}
