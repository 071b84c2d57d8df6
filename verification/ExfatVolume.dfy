/** The mounted volume: the driver's operations as methods over the device. */
module ExfatVolume {
  import opened Arith
  import opened Bytes
  import opened ExfatNames
  import opened ExfatEntrySet
  import opened ExfatScan
  import opened ExfatSpace
  import opened ExfatHeap
  import opened ExfatTree
  import opened ExfatLayout
  import opened ExfatEdit
  import opened ExfatGrow
  import opened ExfatAppend
  import opened ExfatOps
  import opened ExfatStream
  import opened ExfatRemove
  import opened ExfatContents
  import opened ExfatCursor
  import opened ExfatTheorems
  import opened ExfatRename
  import opened ExfatMkdir
  import opened ExfatTarget
  import opened ExfatSubtree
  import opened ExfatPasses

  lemma {:induction false} SectorIn(all: seq<Byte>, c: seq<Byte>, base: nat, s: nat, n: nat)
    requires s < n && |c| == 512 * n && base + |c| <= |all| && all[base..base + |c|] == c
    ensures c[512 * s..512 * s + 512] == all[base + 512 * s..base + 512 * s + 512]
  {
    var lo := 512 * s;
    assert lo + 512 <= |c|;
    SubSlice(all, base, base + |c|, lo, lo + 512);
  }

  lemma {:induction false} SubSlice(s: seq<Byte>, lo: nat, hi: nat, a: nat, b: nat)
    requires lo <= hi <= |s| && a <= b <= hi - lo
    ensures s[lo..hi][a..b] == s[lo + a..lo + b]
  {
    forall i | 0 <= i < b - a
      ensures s[lo..hi][a..b][i] == s[lo + a..lo + b][i]
    {
    }
  }

  lemma {:induction false} PieceAdded(all: seq<Byte>, copied: nat, cap: nat, want: nat, sec: seq<Byte>)
    requires copied + 512 <= |all| && sec == all[copied..copied + 512] && want <= 512
    ensures
      var chunk := if copied + want > cap then cap - copied else want;
      all[..Min(cap, copied + want)] == if copied < cap then all[..copied] + sec[..chunk] else all[..Min(cap, copied)]
  {
  }

  /** A sector of a padded cluster: what is left of the data, then zeros. */
  lemma {:induction false} PaddedSector(buf: seq<Byte>, n: nat, off: nat, want: nat)
    requires |buf| <= n && off + SECTOR <= n && want == if off < |buf| then Min(|buf| - off, SECTOR) else 0
    ensures
      var sec := (if want > 0 then buf[off..off + want] else []) + Zeros(SECTOR - want);
      |sec| == SECTOR && forall i :: 0 <= i < SECTOR ==> sec[i] == Padded(buf, n)[off + i]
  {
    var z := Zeros(SECTOR - want);
    var sec := (if want > 0 then buf[off..off + want] else []) + z;
    var all := Padded(buf, n);
    forall i | 0 <= i < SECTOR
      ensures sec[i] == all[off + i]
    {
      if i < want {
        assert sec[i] == buf[off + i] == all[off + i];
      } else {
        assert sec[i] == z[i - want] == 0;
        assert all[off + i] == Zeros(n - |buf|)[off + i - |buf|] == 0;
      }
    }
  }

  lemma {:induction false} MoreTaken(all: seq<Byte>, offset: nat, copied: nat, piece: seq<Byte>)
    requires offset + copied + |piece| <= |all| && piece == all[offset + copied..offset + copied + |piece|]
    ensures all[offset..offset + copied] + piece == all[offset..offset + (copied + |piece|)]
  {
  }

  /** The next cluster starts where this one ends, while offsets stay below 4 GiB. */
  lemma {:induction false} NextStart(idx: nat, b: nat, pos: nat, end: nat)
    requires pos == idx * b && pos + b == end < TWO32
    ensures (pos + b) % TWO32 == (idx + 1) * b == end
  {
  }

  class Volume {
    const geo: Geo
    /** The device, changed only through the write callbacks below. */
    var disk: Disk
    var allocHint: nat

    /** The open write stream: its path, first and last cluster, 32-bit length, waiting bytes. */
    var wsActive: bool
    var wsPath: Path
    var wsFirst: nat
    var wsPrev: nat
    var wsLen: nat
    var wsBuf: seq<Byte>
    /** All bytes appended since the stream was opened. */
    ghost var wsData: seq<Byte>

    /** The cached read cursor: its path, the file's first cluster, size and kind of allocation, the
        current cluster and the offset at which that starts. */
    var rcPath: Path
    var rcFirst: nat
    var rcSize: nat
    var rcContig: bool
    var rcCluster: nat
    var rcPos: nat

    /** What the device means, and every state it went through. */
    ghost var tree: Tree
    ghost var lay: Layout
    ghost var trace: seq<Disk>

    /** exfat_mount, on a device in order: no stream is open and nothing is cached. */
    constructor (geo: Geo, disk: Disk, ghost tree: Tree, ghost lay: Layout)
      requires Inv(geo, disk, tree, lay) && tree.loose == {}
      ensures Ready() && !wsActive && this.geo == geo && this.disk == disk && this.tree == tree && this.lay == lay
    {
      hide Inv;
      this.geo, this.disk, this.tree, this.lay := geo, disk, tree, lay;
      allocHint, trace := 0, [];
      wsActive, wsPath, wsFirst, wsPrev, wsLen, wsBuf, wsData := false, [], 0, 0, 0, [], [];
      rcPath, rcFirst, rcSize, rcContig, rcCluster, rcPos := [], 0, 0, false, 0, 0;
    }

    // ---- Device access -------------------------------------------------------

    /** Write a FAT entry: read its sector, change four bytes, write the sector back. */
    method WriteFat(c: nat, v: nat)
      requires c < |disk.fat|
      modifies this`disk, this`trace
      ensures disk == old(disk).(fat := old(disk).fat[c := v])
      ensures trace == old(trace) + [disk]
    {
      disk := disk.(fat := disk.fat[c := v]);
      trace := trace + [disk];
    }

    /** Set or clear an allocation bit. */
    method WriteBit(c: nat, b: bool)
      requires c < |disk.bits|
      modifies this`disk, this`trace
      ensures disk == old(disk).(bits := old(disk).bits[c := b])
      ensures trace == old(trace) + [disk]
    {
      disk := disk.(bits := disk.bits[c := b]);
      trace := trace + [disk];
    }

    /** Write one 512-byte sector of a cluster. */
    method WriteSector(c: nat, s: nat, bytes: seq<Byte>)
      requires c < |disk.heap| && |bytes| == SECTOR && SECTOR * s + SECTOR <= |disk.heap[c]|
      modifies this`disk, this`trace
      ensures disk == old(disk).(heap := old(disk).heap[c := Splice(old(disk).heap[c], SECTOR * s, bytes)])
      ensures trace == old(trace) + [disk]
    {
      disk := disk.(heap := disk.heap[c := Splice(disk.heap[c], SECTOR * s, bytes)]);
      trace := trace + [disk];
    }

    /** Rewrite one directory entry: its whole sector is read, changed and written back. */
    method WriteSlot(l: Loc, slot: Slot)
      requires l.clus < |disk.heap| && 32 * l.idx + 32 <= |disk.heap[l.clus]|
      requires |disk.heap[l.clus]| == geo.ClusBytes()
      modifies this`disk, this`trace
      ensures disk == old(disk).(heap := WithSlot(old(disk).heap, l, slot))
      ensures trace == old(trace) + [disk]
    {
      var s, e := l.idx / 16, l.idx % 16;
      var sector := disk.heap[l.clus][SECTOR * s..SECTOR * s + SECTOR];
      ghost var b := disk.heap[l.clus];
      SectorSplice(b, geo.spc, s, e, slot);
      sector := Splice(sector, 32 * e, slot);
      WriteSector(l.clus, s, sector);
    }

    // ---- Space ---------------------------------------------------------------

    /** Allocate one cluster: two passes over the bitmap, from the hint to the end and from the
        start to the hint. 0 means the volume is full. */
    method AllocClus() returns (r: nat)
      requires geo.Valid() && DiskOk(geo, disk)
      modifies this`disk, this`trace, this`allocHint
      ensures r == 0 ==> disk == old(disk) && trace == old(trace)
      ensures r == 0 ==> forall c :: 2 <= c < geo.Total() ==> disk.bits[c]
      ensures r != 0 ==>
        && 2 <= r < geo.Total() && !old(disk).bits[r] && allocHint == r + 1
        && disk == Allocated(old(disk), r)
        && trace == old(trace) + [old(disk).(bits := old(disk).bits[r := true]), disk]
      ensures r != 0 ==>
        var start := if 2 <= old(allocHint) < geo.Total() then old(allocHint) else 2;
        if r >= start then forall c :: start <= c < r ==> old(disk).bits[c]
        else forall c :: 2 <= c < r || start <= c < geo.Total() ==> old(disk).bits[c]
    {
      var total := geo.Total();
      var start := if 2 <= allocHint < total then allocHint else 2;
      var pass := 0;
      while pass < 2
        invariant 0 <= pass <= 2
        invariant disk == old(disk) && trace == old(trace)
        invariant pass >= 1 ==> forall c :: start <= c < total ==> disk.bits[c]
        invariant pass == 2 ==> forall c :: 2 <= c < total ==> disk.bits[c]
      {
        var c := if pass == 1 then 2 else start;
        var end := if pass == 1 then start else total;
        ghost var begin := c;
        while c < end
          invariant begin <= c && (c <= end || c == begin)
          invariant forall x :: begin <= x < c ==> disk.bits[x]
        {
          if !disk.bits[c] {
            WriteBit(c, true);
            WriteFat(c, EOC_WRITE);
            allocHint := c + 1;
            return c;
          }
          c := c + 1;
        }
        pass := pass + 1;
      }
      return 0;
    }

    /** Release a contiguous run of n clusters. */
    method FreeRun(first: nat, n: nat)
      requires DiskOk(geo, disk) && first + n <= geo.Total()
      modifies this`disk, this`trace
      ensures disk == Freed(old(disk), Consecutive(first, n))
      ensures Extends(old(trace), trace)
    {
      ghost var chain := Consecutive(first, n);
      NothingFreed(disk);
      var i := 0;
      while i < n
        invariant 0 <= i <= n
        invariant disk == Freed(old(disk), chain[..i])
        invariant Extends(old(trace), trace)
      {
        FreedStep(old(disk), chain, i);
        WriteBit(first + i, false);
        WriteFat(first + i, 0);
        i := i + 1;
      }
      assert chain[..n] == chain;
    }

    /** Release a FAT chain, reading each link before it is cleared. */
    method FreeLinked(first: nat, ghost chain: seq<nat>)
      requires geo.Valid() && DiskOk(geo, disk) && Distinct(chain)
      requires PathOf(disk.fat, chain) && chain[0] == first && disk.fat[chain[|chain| - 1]] >= EOC
      modifies this`disk, this`trace
      ensures disk == Freed(old(disk), chain)
      ensures Extends(old(trace), trace)
    {
      NothingFreed(disk);
      assert chain[..0] == [];
      var c, g := first, 0;
      while 2 <= c < EOC && g < MAX_CLUSTERS
        invariant 0 <= g <= |chain|
        invariant c == if g < |chain| then chain[g] else old(disk).fat[chain[|chain| - 1]]
        invariant disk == Freed(old(disk), chain[..g])
        invariant Extends(old(trace), trace)
      {
        FreedStep(old(disk), chain, g);
        var nx := disk.fat[c];
        WriteBit(c, false);
        WriteFat(c, 0);
        c, g := nx, g + 1;
      }
      assert chain[..|chain|] == chain;
    }

    /** Release an owner's clusters: a chain by following the FAT, a contiguous run by counting
        clusters from its length in 32-bit arithmetic. */
    method FreeChain(first: nat, contig: bool, len: nat)
      requires geo.Valid() && SpaceOk(geo, disk, tree.own, tree.at)
      requires first >= 2 ==> first in tree.own && tree.own[first].contig == contig
      requires first >= 2 && contig ==> FreeCount(geo, len) <= |tree.own[first].chain|
      requires first < 2 ==> first !in tree.own
      modifies this`disk, this`trace
      ensures disk == Freed(old(disk), Reach(geo, tree, first, contig, len)) && disk.heap == old(disk).heap
      ensures !contig ==> disk == Released(old(disk), tree, first)
      ensures Extends(old(trace), trace)
    {
      hide Freed, SpaceOk, FreeCount, PathOf, Covers;
      FreedHeap(disk, Reach(geo, tree, first, contig, len));
      if first < 2 {
        NothingFreed(disk);
        return;
      }
      ghost var chain := tree.own[first].chain;
      ChainFacts(geo, disk, tree.own, tree.at, first);
      DiskFacts(geo, disk, tree.own, tree.at);
      if contig {
        var n := FreeCount(geo, len);
        assert chain[0] < geo.Total() && (n > 0 ==> chain[n - 1] < geo.Total());
        assert chain[..n] == Consecutive(first, n);
        FreeRun(first, n);
      } else {
        FreeLinked(first, chain);
      }
    }

    // ---- Directory scans -----------------------------------------------------

    ghost predicate Valid()
      reads this
    {
      Inv(geo, disk, tree, lay)
    }

    /** The volume, its stream and its cursor are in order. */
    ghost predicate Ready()
      reads this
    {
      && Valid() && StreamOk(geo, disk.heap, tree, Ws(), wsData) && (wsActive ==> SpellablePath(wsPath))
      && CursorOk(geo, tree, Rc())
    }

    ghost function Rc(): Cursor
      reads this
    {
      Cursor(rcPath, rcFirst, rcSize, rcContig, rcCluster, rcPos)
    }

    /** All entries of a directory, in walking order. */
    ghost function CellsOf(k: nat): seq<Cell>
      requires Valid() && k in tree.dirs
      reads this
    {
      DirFacts(geo, disk, tree, lay, k);
      DirCells(disk.heap, tree.own[k].chain)
    }

    /** Walk a directory entry by entry, sector by sector, cluster by cluster, until the wanted
        name is complete, the end marker is met or the chain ends. */
    method ScanDir(first: nat, want: Option<Name>) returns (r: ScanResult, lastClus: nat)
      requires Valid() && first in tree.dirs
      ensures r == Scan(Idle, CellsOf(first), want)
      ensures r.Miss? && r.end.Eod? ==> lastClus == r.end.loc.clus
    {
      DirFacts(geo, disk, tree, lay, first);
      hide Inv;
      r, lastClus := ScanChain(first, want, tree.own[first].chain);
    }

    /** The walk itself, for any well-ended chain. */
    method ScanChain(first: nat, want: Option<Name>, ghost chain: seq<nat>)
      returns (r: ScanResult, lastClus: nat)
      requires |disk.heap| == |disk.fat| < MAX_CLUSTERS && Covers(disk.heap, chain, geo.Slots())
      requires PathOf(disk.fat, chain) && chain[0] == first && disk.fat[chain[|chain| - 1]] >= EOC
      requires InHeap(disk.heap, chain) && |chain| < MAX_CLUSTERS
      ensures r == Scan(Idle, DirCells(disk.heap, chain), want)
      ensures r.Miss? && r.end.Eod? ==> lastClus == r.end.loc.clus
    {
      ghost var all := DirCells(disk.heap, chain);
      var cluster, guard, st := first, 0, Idle;
      lastClus := 0;
      assert chain[0..] == chain;
      hide Scan, ClusterCells;
      while 2 <= cluster < EOC && guard < MAX_CLUSTERS
        invariant 0 <= guard <= |chain|
        invariant cluster == if guard < |chain| then chain[guard] else disk.fat[chain[|chain| - 1]]
        invariant Scan(Idle, all, want) == Scan(st, DirCells(disk.heap, chain[guard..]), want)
      {
        lastClus := cluster;
        guard := guard + 1;
        assert chain[guard - 1..][1..] == chain[guard..];
        var done: bool;
        done, r, st := ScanCluster(cluster, st, want, DirCells(disk.heap, chain[guard..]));
        if done {
          return;
        }
        NextLink(disk.fat, chain, guard - 1);
        cluster := disk.fat[cluster];
      }
      ScanNothing(st, want);
      assert chain[guard..] == [];
      r := Miss(Open(st));
    }

    /** One cluster of a walk. `rest` is what the walk would see after it. */
    method ScanCluster(cluster: nat, st0: ScanState, want: Option<Name>, ghost rest: seq<Cell>)
      returns (done: bool, r: ScanResult, st: ScanState)
      requires cluster < |disk.heap| && |disk.heap[cluster]| == geo.ClusBytes()
      ensures
        var here := Scan(st0, ClusterCells(cluster, disk.heap[cluster]) + rest, want);
        if done then here == r && (r.Miss? ==> r.end.Eod? && r.end.loc.clus == cluster)
        else here == Scan(st, rest, want)
    {
      hide Step, Wanted;
      var b := disk.heap[cluster];
      ghost var cells := ClusterCells(cluster, b);
      st, r, done := st0, Miss(Open(st0)), false;
      var s := 0;
      while s < geo.spc
        invariant 0 <= s <= geo.spc
        invariant Scan(st0, cells + rest, want) == Scan(st, cells[16 * s..] + rest, want)
      {
        var e := 0;
        while e < 16
          invariant 0 <= e <= 16
          invariant Scan(st0, cells + rest, want) == Scan(st, cells[16 * s + e..] + rest, want)
        {
          var c := Cell(Loc(cluster, 16 * s + e), SlotAt(b, 16 * s + e));
          assert c == cells[16 * s + e];
          assert (cells[16 * s + e..] + rest)[1..] == cells[16 * s + e + 1..] + rest;
          if c.slot[0] == 0 {
            return true, Miss(Eod(c.loc)), st;
          }
          var (next, f) := Step(st, c);
          if f.Some? && Wanted(f.value.entry, want) {
            return true, Hit(f.value), next;
          }
          st := next;
          e := e + 1;
        }
        s := s + 1;
      }
      assert cells[16 * s..] + rest == rest;
    }

    /** List at most max entries of a directory. */
    method ListDir(first: nat, max: nat) returns (out: seq<Listing>)
      requires Valid() && first in tree.dirs
      ensures out == Listings(FirstOf(Entries(tree.dirs[first]), max))
    {
      DirFacts(geo, disk, tree, lay, first);
      NamesNonEmpty(geo, tree, first);
      hide Inv;
      ghost var chain := tree.own[first].chain;
      DirWalk(disk.heap, chain, lay[first]);
      ListingEntries(lay[first], tree.dirs[first]);
      out := ListChain(first, max, chain);
    }

    method ListChain(first: nat, max: nat, ghost chain: seq<nat>) returns (out: seq<Listing>)
      requires |disk.heap| == |disk.fat| < MAX_CLUSTERS && Covers(disk.heap, chain, geo.Slots())
      requires PathOf(disk.fat, chain) && chain[0] == first && disk.fat[chain[|chain| - 1]] >= EOC
      requires InHeap(disk.heap, chain) && |chain| < MAX_CLUSTERS
      ensures out == Listings(FirstOf(Shown(Run(Idle, DirCells(disk.heap, chain)).events), max))
    {
      ghost var all, ents: seq<Entry> := DirCells(disk.heap, chain), [];
      var cluster, guard, st := first, 0, Idle;
      out := [];
      assert chain[0..] == chain;
      hide Run, ClusterCells, DirCells, ListedAs, Listings, Shown, PathOf;
      while 2 <= cluster < EOC && guard < MAX_CLUSTERS
        invariant 0 <= guard <= |chain| && InHeap(disk.heap, chain[guard..])
        invariant cluster == if guard < |chain| then chain[guard] else disk.fat[chain[|chain| - 1]]
        invariant |ents| <= max && out == Listings(ents)
        invariant Shown(Run(Idle, all).events) == ents + Shown(Run(st, DirCells(disk.heap, chain[guard..])).events)
      {
        DirCellsFrom(disk.heap, chain, guard);
        guard := guard + 1;
        var done: bool;
        done, out, st, ents := ListCluster(cluster, st, out, max, ents, DirCells(disk.heap, chain[guard..]));
        if done {
          return;
        }
        NextLink(disk.fat, chain, guard - 1);
        cluster := disk.fat[cluster];
      }
      RunNothing(st);
      NoCells(disk.heap, chain[guard..]);
    }

    /** One cluster of a listing. `ents0` has been listed, and `rest` is what the walk would see after it. */
    method ListCluster(cluster: nat, st0: ScanState, out0: seq<Listing>, max: nat, ghost ents0: seq<Entry>,
        ghost rest: seq<Cell>)
      returns (done: bool, out: seq<Listing>, st: ScanState, ghost ents: seq<Entry>)
      requires cluster < |disk.heap| && |disk.heap[cluster]| == geo.ClusBytes() && |ents0| <= max
        && out0 == Listings(ents0)
      ensures |ents| <= max && out == Listings(ents)
      ensures
        var all := ents0 + Shown(Run(st0, ClusterCells(cluster, disk.heap[cluster]) + rest).events);
        if done then ents == FirstOf(all, max) else all == ents + Shown(Run(st, rest).events)
    {
      hide Step, Run, Shown, ListedAs, Listings;
      var b := disk.heap[cluster];
      ghost var cells := ClusterCells(cluster, b);
      ghost var all := ents0 + Shown(Run(st0, cells + rest).events);
      st, out, done, ents := st0, out0, false, ents0;
      var s := 0;
      while s < geo.spc
        invariant 0 <= s <= geo.spc && |ents| <= max && out == Listings(ents)
        invariant all == ents + Shown(Run(st, cells[16 * s..] + rest).events)
      {
        var e := 0;
        while e < 16
          invariant 0 <= e <= 16 && |ents| <= max && out == Listings(ents)
          invariant all == ents + Shown(Run(st, cells[16 * s + e..] + rest).events)
        {
          var c := Cell(Loc(cluster, 16 * s + e), SlotAt(b, 16 * s + e));
          ghost var left := cells[16 * s + e..] + rest;
          assert c == cells[16 * s + e] && left[0] == c;
          assert left[1..] == cells[16 * s + e + 1..] + rest;
          ListStep(ents, st, left);
          if c.slot[0] == 0 {
            return true, out, st, ents;
          }
          var (next, f) := Step(st, c);
          if f.Some? && f.value.entry.name != [] {
            if |out| >= max {
              return true, out, st, ents;
            }
            ListingsMore(ents, f.value.entry);
            out, ents := out + [ListedAs(f.value.entry)], ents + [f.value.entry];
          }
          st := next;
          e := e + 1;
        }
        s := s + 1;
      }
      assert cells[16 * s..] + rest == rest;
    }

    // ---- Path resolution -------------------------------------------------------

    /** Resolve a path component by component, for reading (a file) or listing (a directory). */
    method ResolvePath(path: Path, wantDir: bool) returns (r: Option<Entry>)
      requires Valid()
      ensures path == [] ==> r == if wantDir then Some(Entry([], true, geo.root, 0, false)) else None
      ensures path != [] ==>
        var at := Resolve(geo, tree, path);
        r == if at.Some? && EntAt(tree, at.value.0, at.value.1).isDir == wantDir
             then Some(EntAt(tree, at.value.0, at.value.1)) else None
    {
      hide SpaceOk, RefsOk, LayoutOk, Scan, EntryOk;
      var cur := Entry([], true, geo.root, 0, false);
      var i := 0;
      while i < |path|
        invariant 0 <= i <= |path|
        invariant i == 0 ==> cur == Entry([], true, geo.root, 0, false)
        invariant i > 0 ==>
          var at := Resolve(geo, tree, path[..i]);
          at.Some? && cur == EntAt(tree, at.value.0, at.value.1)
      {
        ghost var up := path[..i];
        assert path[..i + 1][..i] == up;
        if !cur.isDir {
          DeadPath(geo, tree, path, i + 1);
          return None;
        }
        assert ResolveDir(geo, tree, up) == Some(cur.first) by { DirOfEntry(geo, tree, up, cur); }
        var sc, _ := ScanDir(cur.first, Some(path[i]));
        ScanMeans(geo, disk, tree, lay, cur.first, path[i]);
        if sc.Miss? {
          DeadPath(geo, tree, path, i + 1);
          return None;
        }
        cur := sc.found.entry;
        i := i + 1;
      }
      assert path[..i] == path;
      if cur.isDir != wantDir {
        return None;
      }
      return Some(cur);
    }

    // ---- In-place edits of an entry set ------------------------------------------

    /** Read the entries of a set back from the device. */
    method ReadSet(n: nat, locs: seq<Loc>, ghost chain: seq<nat>, ghost items: seq<Item>, ghost i: nat)
      returns (ents: seq<Slot>)
      requires Editable(geo, disk.heap, chain, items, i, n, locs)
      ensures i < |items| && items[i].Live? && ents == items[i].ents
    {
      EditableSet(geo, disk.heap, chain, items, i, n, locs);
      RewrittenNone(disk, chain, ItemStart(items, i));
      hide Editable, Rewritten, SetOk;
      ents := [];
      var k := 0;
      assert items[i].ents[..0] == [];
      while k < n
        invariant 0 <= k <= n && ents == items[i].ents[..k]
      {
        ReadStep(geo, disk, chain, items, i, n, locs, k);
        ents := ents + [SlotAt(disk.heap[locs[k].clus], locs[k].idx)];
        k := k + 1;
      }
      assert items[i].ents[..n] == items[i].ents;
    }

    /** Write a whole set back, entry by entry. */
    method WriteSet(ents: seq<Slot>, n: nat, locs: seq<Loc>, ghost chain: seq<nat>, ghost items: seq<Item>,
        ghost i: nat)
      requires Editable(geo, disk.heap, chain, items, i, n, locs) && |ents| == n
      modifies this`disk, this`trace
      ensures i < |items| && Rewritten(old(disk), disk, chain, ItemStart(items, i), ents)
      ensures EditTrace(old(disk), old(trace), trace, chain, ItemStart(items, i), ents, n)
    {
      EditableSet(geo, disk.heap, chain, items, i, n, locs);
      ghost var start := ItemStart(items, i);
      RewrittenNone(disk, chain, start);
      hide Editable, Rewritten, SetOk;
      assert ents[..0] == [];
      var k := 0;
      while k < n
        invariant 0 <= k <= n
        invariant Rewritten(old(disk), disk, chain, start, ents[..k])
        invariant EditTrace(old(disk), old(trace), trace, chain, start, ents, k)
      {
        EditStep(geo, old(disk), disk, chain, items, i, n, locs, ents, k);
        ghost var before := trace;
        WriteSlot(locs[k], ents[k]);
        EditTraceNext(old(disk), old(trace), before, disk, chain, start, ents, k);
        k := k + 1;
      }
      assert ents[..n] == ents;
    }

    /** Record a directory's new length in its own entry set: both length fields and the checksum. */
    method UpdateMeta(dr: DirRef, newBytes: nat, ghost chain: seq<nat>, ghost items: seq<Item>, ghost i: nat)
      requires newBytes < TWO32 && Editable(geo, disk.heap, chain, items, i, dr.n, dr.locs)
      modifies this`disk, this`trace
      ensures i < |items| && items[i].Live? && SetOk(items[i].ents)
      ensures Rewritten(old(disk), disk, chain, ItemStart(items, i), WithSize(items[i].ents, newBytes))
      ensures EditTrace(old(disk), old(trace), trace, chain, ItemStart(items, i), WithSize(items[i].ents, newBytes),
        dr.n)
    {
      EditableSet(geo, disk.heap, chain, items, i, dr.n, dr.locs);
      hide Editable, Rewritten, EditTrace, SetChecksum;
      var ents := ReadSet(dr.n, dr.locs, chain, items, i);
      var s1: Slot := Splice(Splice(ents[1], 8, Le64(newBytes)), 24, Le64(newBytes));
      ents := ents[1 := s1];
      var cs := ComputeChecksum(ents);
      ents := WithChecksum(ents, cs);
      WriteSet(ents, dr.n, dr.locs, chain, items, i);
    }

    /** Clear the in-use bit of every entry of a set. */
    method RetireSet(n: nat, locs: seq<Loc>, ghost chain: seq<nat>, ghost items: seq<Item>, ghost i: nat)
      requires Editable(geo, disk.heap, chain, items, i, n, locs)
      modifies this`disk, this`trace
      ensures i < |items| && items[i].Live?
      ensures Rewritten(old(disk), disk, chain, ItemStart(items, i), RetiredAll(items[i].ents))
      ensures EditTrace(old(disk), old(trace), trace, chain, ItemStart(items, i), RetiredAll(items[i].ents), n)
      ensures |trace| > |old(trace)| && trace[|trace| - 1] == disk
    {
      hide Editable, Rewritten, SetOk, Retired, RetiredAll, ItemStart, EditTrace;
      EditableSet(geo, disk.heap, chain, items, i, n, locs);
      EditableMany(geo, disk.heap, chain, items, i, n, locs);
      ghost var start, gone := ItemStart(items, i), RetiredAll(items[i].ents);
      RewrittenNone(disk, chain, start);
      assert gone[..0] == [];
      EditTraceNone(disk, trace, chain, start, gone);
      var k := 0;
      while k < n
        invariant 0 <= k <= n && |trace| == |old(trace)| + k && (k > 0 ==> trace[|trace| - 1] == disk)
        invariant Rewritten(old(disk), disk, chain, start, gone[..k])
        invariant EditTrace(old(disk), old(trace), trace, chain, start, gone, k)
      {
        ghost var before := trace;
        RetireOne(n, locs, chain, items, i, k, old(disk));
        EditTraceNext(old(disk), old(trace), before, disk, chain, start, gone, k);
        k := k + 1;
      }
      assert gone[..n] == gone;
    }

    /** The k-th of them. */
    method RetireOne(ghost n: nat, locs: seq<Loc>, ghost chain: seq<nat>, ghost items: seq<Item>, ghost i: nat, k: nat,
        ghost d: Disk)
      requires Editable(geo, d.heap, chain, items, i, n, locs) && k < n && i < |items| && items[i].Live?
      requires |RetiredAll(items[i].ents)| == n && Rewritten(d, disk, chain, ItemStart(items, i),
        RetiredAll(items[i].ents)[..k])
      modifies this`disk, this`trace
      ensures Rewritten(d, disk, chain, ItemStart(items, i), RetiredAll(items[i].ents)[..k + 1])
        && trace == old(trace) + [disk]
    {
      hide Editable, Rewritten, Retired;
      ghost var gone := RetiredAll(items[i].ents);
      EditStep(geo, d, disk, chain, items, i, n, locs, gone, k);
      WriteSlot(locs[k], Retired(SlotAt(disk.heap[locs[k].clus], locs[k].idx)));
    }

    // ---- Growing a directory -----------------------------------------------------

    /** Fill a cluster with zeros, sector by sector. */
    method ZeroCluster(c: nat)
      requires c < |disk.heap| && |disk.heap[c]| == geo.ClusBytes()
      modifies this`disk, this`trace
      ensures disk == old(disk).(heap := old(disk).heap[c := Zeros(geo.ClusBytes())])
      ensures OnlyCluster(old(disk), disk, c) && Extends(old(trace), trace)
      ensures forall j :: |old(trace)| <= j < |trace| ==> OnlyCluster(old(disk), trace[j], c)
    {
      var s := 0;
      while s < geo.spc
        invariant 0 <= s <= geo.spc && c < |disk.heap|
        invariant OnlyCluster(old(disk), disk, c)
        invariant forall i :: 0 <= i < 512 * s ==> disk.heap[c][i] == 0
        invariant Extends(old(trace), trace)
        invariant forall j :: |old(trace)| <= j < |trace| ==> OnlyCluster(old(disk), trace[j], c)
      {
        SpliceAt(disk.heap[c], SECTOR * s, Zeros(SECTOR));
        WriteSector(c, s, Zeros(SECTOR));
        s := s + 1;
      }
      assert disk.heap[c] == Zeros(geo.ClusBytes());
      assert disk.heap == old(disk).heap[c := Zeros(geo.ClusBytes())];
    }

    /** Give a directory one more cluster: allocate it, link it behind the last one, zero it, and
        record the new length. 0 means the volume is full. */
    method GrowDir(dr: DirRef, cur: nat, ghost t0: Tree) returns (nx: nat, dr': DirRef)
      requires Appending(geo, disk, tree, lay, dr.first) && RefTo(geo, disk.heap, tree, lay, dr)
      requires dr.first in tree.own && tree.own[dr.first].chain != []
      requires cur == tree.own[dr.first].chain[|tree.own[dr.first].chain| - 1]
      requires Since(t0, tree, dr.first) && Shows(disk, t0)
      modifies this`disk, this`trace, this`allocHint, this`tree, this`lay
      ensures nx == 0 ==> disk == old(disk) && tree == old(tree) && lay == old(lay) && trace == old(trace)
      ensures nx == 0 ==> VolumeFull(geo, disk)
      ensures nx != 0 ==>
        && 2 <= nx < geo.Total() && nx < |old(disk).bits| && !old(disk).bits[nx]
        && tree == Grown(geo, old(tree), dr.first, nx) && lay == GrownLay(geo, old(tree), old(lay), dr.first)
        && Appending(geo, disk, tree, lay, dr.first) && RefTo(geo, disk.heap, tree, lay, dr') && dr'.first == dr.first
        && exists xz :: Zeroed(geo, old(disk), xz, cur, nx) && MetaDone(geo, xz, disk, old(tree), old(lay), dr.first)
      ensures ShownThrough(old(trace), trace, t0)
    {
      hide Appending, RefTo, Shows, Since, Zeroed, MetaDone, Grown, GrownLay, ShownThrough, Extends, Editable,
        Rewritten, EditTrace, OnlyCluster, WithSize, EntryAt, EntAt;
      ghost var d, x0, tr0 := dr.first, disk, trace;
      dr' := dr;
      AppendingDisk(geo, disk, tree, lay, d);
      ShownNothing(tr0, t0);
      nx := AllocClus();
      if nx == 0 {
        return;
      }
      ghost var x2, tr2 := disk, trace;
      assert cur < |disk.fat| by { AppendingLast(geo, x0, tree, lay, d); }
      WriteFat(cur, nx);
      ghost var x3, tr3 := disk, trace;
      ZeroCluster(nx);
      ghost var xz, trz := disk, trace;
      ZeroedIntro(geo, x0, x3, xz, cur, nx);
      GrowTrace(geo, x0, x2, x3, xz, tree, lay, d, t0, nx, tr0, tr2, tr3, trz);
      RefToRoot(geo, x0.heap, tree, lay, dr);
      if !dr.isRoot {
        ghost var p, i := tree.refs[d].0, tree.refs[d].1;
        MetaReady(geo, x0, xz, tree, lay, dr, nx);
        UpdateMeta(dr, (dr.allocBytes + geo.ClusBytes()) % TWO32, tree.own[p].chain, lay[p], i);
        dr' := dr.(allocBytes := (dr.allocBytes + geo.ClusBytes()) % TWO32);
        MetaTrace(geo, x0, xz, tree, lay, dr, nx, t0, trz, trace);
        ShownTrans(tr0, trz, trace, t0);
      }
      if dr.isRoot {
        MetaDoneRoot(geo, x0, xz, tree, lay, d);
      } else {
        MetaDoneChild(geo, xz, disk, tree, lay, dr);
      }
      GrownAppending(geo, x0, xz, disk, tree, lay, d, nx);
      RefToGrown(geo, x0, xz, disk, tree, lay, nx, dr);
      tree, lay := Grown(geo, tree, d, nx), GrownLay(geo, tree, lay, d);
    }

    // ---- Appending an entry set ----------------------------------------------------

    /** Step from the entry just written to the place of the next one. At the end of a cluster that
        is the next cluster of the chain; at the end of the chain the directory grows, unless only
        the end marker is left to write. */
    method NextPlace(dr: DirRef, l: Loc, onlyMarker: bool, ghost pos: AppendPos)
        returns (to: Place, ghost pos': AppendPos)
      requires AppendAt(geo, disk, tree, lay, dr, l, pos) && pos.m > 0
      requires onlyMarker <==> pos.m == |pos.ents|
      modifies this`disk, this`trace, this`allocHint, this`tree, this`lay
      ensures ShownThrough(old(trace), trace, pos.t0)
      ensures to.Next? ==>
        && pos' == pos.(ci := pos'.ci) && to.dr.first == dr.first
        && NextAt(geo, disk, tree, lay, to.dr, to.loc, pos')
      ensures to.Full? ==> disk == old(disk) && trace == old(trace) && VolumeFull(geo, disk)
      ensures to.Full? ==> Appending(geo, disk, tree, lay, dr.first) && GrownFrom(pos.t0, tree, dr.first)
      ensures to.Ended? ==>
        && onlyMarker && disk == old(disk) && tree == old(tree) && lay == old(lay)
        && FullAt(geo, disk, tree, lay, dr, pos)
    {
      hide AppendAt, NextAt, FullAt, ShownThrough, VolumeFull, GrownFrom, Appending, RefTo, Shows, Since, Zeroed,
        MetaDone, Grown, GrownLay;
      ShownNothing(trace, pos.t0);
      pos' := pos;
      if l.idx + 1 < geo.Slots() {
        NextInCluster(geo, disk, tree, lay, dr, l, pos);
        return Next(dr, Loc(l.clus, l.idx + 1)), pos;
      }
      NextLinked(geo, disk, tree, lay, dr, l, pos);
      var nx := disk.fat[l.clus];
      if 2 <= nx < EOC {
        return Next(dr, Loc(nx, 0)), pos.(ci := pos.ci + 1);
      }
      if onlyMarker {
        return Ended, pos;
      }
      ghost var x1, tree1, lay1 := disk, tree, lay;
      GrowReady(geo, disk, tree, lay, dr, l, pos);
      var dr': DirRef;
      nx, dr' := GrowDir(dr, l.clus, pos.t0);
      if nx == 0 {
        AppendFailed(geo, disk, tree, lay, dr, pos);
        return Full, pos;
      }
      NextGrown(geo, x1, disk, tree1, lay1, dr, dr', l, pos, nx);
      return Next(dr', Loc(nx, 0)), pos.(ci := pos.ci + 1);
    }

    /** Write a set of entries from the end marker on, then a fresh end marker. Entries may run over
        sectors and clusters; the directory grows when its chain ends. Nothing follows when the set
        ends exactly at the end of the chain. */
    method AppendEntries(dr0: DirRef, eod: Loc, ents: seq<Slot>, ghost start: AppendPos) returns (ok: bool)
      requires NextAt(geo, disk, tree, lay, dr0, eod, start) && start.m == 0 && start.ents == ents && SetShape(ents)
      modifies this`disk, this`trace, this`allocHint, this`tree, this`lay
      ensures ShownThrough(old(trace), trace, start.t0)
      ensures ok ==> AppendDone(geo, disk, tree, lay, dr0.first, start.t0, start.h0, start.items, ents)
      ensures !ok ==> Appending(geo, disk, tree, lay, dr0.first) && GrownFrom(start.t0, tree, dr0.first)
      ensures !ok ==> FullDuring(geo, old(trace), trace)
    {
      hide NextAt, AppendAt, FullAt, AppendDone, ShownThrough, Shows, SetShape, Appending, GrownFrom, FullDuring,
        VolumeFull;
      ghost var pos := start;
      ShownNothing(trace, start.t0);
      var dr, l, ei := dr0, eod, 0;
      while ei < |ents|
        invariant 0 <= ei <= |ents| && dr.first == dr0.first
        invariant pos == start.(m := ei, ci := pos.ci)
        invariant NextAt(geo, disk, tree, lay, dr, l, pos)
        invariant ShownThrough(old(trace), trace, start.t0)
      {
        ghost var before := trace;
        AppendWrite(geo, disk, tree, lay, dr, l, pos);
        WriteSlot(l, ents[ei]);
        ShownOne(old(trace), before, disk, start.t0);
        ei := ei + 1;
        pos := pos.(m := ei);
        ghost var mid := trace;
        var to: Place;
        ghost var pos1 := pos;
        to, pos := NextPlace(dr, l, ei == |ents|, pos);
        ShownTrans(old(trace), mid, trace, start.t0);
        match to {
          case Full =>
            FullNow(geo, old(trace), before, disk, start.t0);
            return false;
          case Ended =>
            AppendFull(geo, disk, tree, lay, dr, pos1);
            return true;
          case Next(dr', l') => dr, l := dr', l';
        }
      }
      ghost var before := trace;
      AppendTerminated(geo, disk, tree, lay, dr, l, pos);
      WriteSlot(l, Zeros(32));
      ShownOne(old(trace), before, disk, start.t0);
      return true;
    }

    // ---- Directory references ------------------------------------------------------

    /** Find a directory and the places of its own entry set in its parent, from the root down. */
    method DirRefResolve(path: Path) returns (dr: Option<DirRef>)
      requires Valid()
      ensures dr.Some? <==> ResolveDir(geo, tree, path).Some?
      ensures dr.Some? ==>
        dr.value.first == ResolveDir(geo, tree, path).value && RefTo(geo, disk.heap, tree, lay, dr.value)
      decreases |path|
    {
      hide SpaceOk, EntriesOk, LayoutOk, Scan, RefTo, PlacedAt, Editable;
      if path == [] {
        RefToTop(geo, disk, tree, lay);
        return Some(DirRef(geo.root, 0, true, 0, []));
      }
      var parent := DirRefResolve(path[..|path| - 1]);
      if parent == None {
        return None;
      }
      var k, base := parent.value.first, path[|path| - 1];
      var sc, _ := ScanDir(k, Some(base));
      if Find(tree.dirs[k], base) == |tree.dirs[k]| {
        FindMisses(geo, disk, tree, lay, k, base);
      } else {
        HitEditable(geo, disk, tree, lay, k, base);
      }
      if sc.Miss? || !sc.found.entry.isDir {
        return None;
      }
      var f := sc.found;
      RefToHit(geo, disk, tree, lay, k, base, f.n, f.locs);
      return Some(DirRef(f.entry.first, f.entry.size % TWO32, false, f.n, f.locs));
    }

    // ---- Deletion --------------------------------------------------------------------

    /** Delete one entry: release its clusters, then retire its entry set. -1: no such entry. -2: the
        path names a directory that is not empty. */
    method DeleteOne(path: Path) returns (r: int)
      requires Valid() && |Base(path)| < PART
      modifies this`disk, this`trace, this`tree, this`lay
      ensures Valid() && RefsOk(geo, old(tree))
      ensures r == OneCode(geo, old(tree), path)
      ensures r != 0 ==> disk == old(disk) && tree == old(tree) && lay == old(lay) && trace == old(trace)
      ensures r == 0 ==>
        && Target(geo, old(tree), path).Some? && geo.ClusBytes() > 0
        && var (d, i) := Target(geo, old(tree), path).value;
           Unlinked(geo, old(disk), old(tree), disk, tree, d, i) && SlotsKept(old(lay), lay)
           && Logged(old(disk), old(trace), trace, disk)
    {
      hide SpaceOk, EntriesOk, LayoutOk, Scan, RefTo, PlacedAt, Editable, Rewritten, RetiredAll, Detached, DetachedLay,
        Unlinked, Entries, AllSlots;
      if path == [] {
        return -1;
      }
      var parent := DirRefResolve(DirPart(path));
      if parent == None {
        return -1;
      }
      var k, base := parent.value.first, Base(path);
      var sc, _ := ScanDir(k, Some(base));
      if Find(tree.dirs[k], base) == |tree.dirs[k]| {
        FindMisses(geo, disk, tree, lay, k, base);
      } else {
        HitEditable(geo, disk, tree, lay, k, base);
      }
      if sc.Miss? {
        return -1;
      }
      ghost var i := Find(tree.dirs[k], base);
      var f := sc.found;
      if f.entry.isDir {
        var probe := ListPath(path, 1);
        if probe.Some? {
          EntriesNone(tree.dirs[ResolveDir(geo, tree, path).value]);
        }
        if probe.Some? && |probe.value| > 0 {
          return -2;
        }
      }
      r := RemoveHit(k, i, f);
    }

    /** List at most max entries of the directory a path names. */
    method ListPath(path: Path, max: nat) returns (r: Option<seq<Listing>>)
      requires Valid()
      ensures RefsOk(geo, tree)
      ensures r.Some? <==> ResolveDir(geo, tree, path).Some?
      ensures r.Some? ==> r.value == Listings(FirstOf(Entries(tree.dirs[ResolveDir(geo, tree, path).value]), max))
    {
      hide Inv, RefsOk, EntryOk, Entries;
      InvRefs(geo, disk, tree, lay);
      var first := geo.root;
      if path != [] {
        var e := ResolvePath(path, true);
        if e == None {
          return None;
        }
        first := e.value.first;
      }
      assert ResolveDir(geo, tree, path) == Some(first);
      var out := ListDir(first, max);
      return Some(out);
    }

    /** One pass of a tree deletion: go down along first entries and delete the leaf reached. */
    method RemoveLeaf(path: Path) returns (ok: bool)
      requires Valid() && path != [] && PathFits(path)
      modifies this`disk, this`trace, this`tree, this`lay
      ensures Valid() && RefsOk(geo, old(tree))
      ensures PassDone(geo, old(disk), old(tree), disk, tree, path, ok)
    {
      hide Inv, RefsOk, EntryOk, Unlinked, OneCode, Target, Resolve, ResolveDir, Entries;
      InvRefs(geo, disk, tree, lay);
      var cur := path;
      BaseShort(path);
      while true
        invariant disk == old(disk) && tree == old(tree) && lay == old(lay) && trace == old(trace)
        invariant Descent(geo, tree, cur) == Descent(geo, tree, path)
        invariant TextSize(cur) < TREE_PATH && |Base(cur)| < PART && |cur| >= |path|
          && (|cur| == |path| ==> cur == path)
        decreases TREE_PATH - TextSize(cur)
      {
        var ents := ListPath(cur, LISTED_COUNT);
        if ents == None {
          return false;
        }
        ghost var here := Entries(tree.dirs[ResolveDir(geo, tree, cur).value]);
        ListedFirst(here, LISTED_COUNT);
        var leaf := true;
        if |ents.value| > 0 {
          var name := ents.value[0].name;
          NextText(cur, name);
          if TextSize(cur) + |name| + 2 >= TREE_PATH {
            return false;
          }
          cur := cur + [name];
          leaf := !ents.value[0].isDir;
        }
        if leaf {
          if cur == path {
            return true;
          }
          var r := DeleteOne(cur);
          return r == 0;
        }
      }
    }

    /** The writes of a deletion. */
    method RemoveHit(ghost k: nat, ghost i: nat, f: Found) returns (r: int)
      requires Valid() && EntryAt(tree, k, i) && f.entry == EntAt(tree, k, i)
      requires k in tree.own && k in lay && Editable(geo, disk.heap, tree.own[k].chain, lay[k], i, f.n, f.locs)
      modifies this`disk, this`trace, this`tree, this`lay
      ensures Valid() && r == 0 && geo.ClusBytes() > 0
      ensures Unlinked(geo, old(disk), old(tree), disk, tree, k, i)
      ensures SlotsKept(old(lay), lay) && Logged(old(disk), old(trace), trace, disk)
    {
      hide SpaceOk, EntriesOk, LayoutOk, Editable, Rewritten, RetiredAll, Without, DetachedLay, RefsOk, Freed, Extends,
        EditTrace, SizeOk, Reach, Unlinked, AllSlots;
      ghost var x, t, lay0, e := disk, tree, lay, f.entry;
      ghost var chain, items := tree.own[k].chain, lay[k];
      FreeFacts(geo, disk, tree, lay, k, i);
      NotOwnChild(geo, tree, k, i);
      EditableSet(geo, disk.heap, chain, items, i, f.n, f.locs);
      FreeChain(f.entry.first, f.entry.contig, f.entry.size);
      EditableHeap(geo, x.heap, disk.heap, chain, items, i, f.n, f.locs);
      ghost var x1, tr1 := disk, trace;
      RetireSet(f.n, f.locs, chain, items, i);
      EditLogged(x, old(trace), x1, tr1, trace, disk, chain, ItemStart(items, i), RetiredAll(items[i].ents), f.n);
      UnlinkInv(geo, x, disk, t, lay, k, i);
      DetachedSlots(t, lay, k, i);
      lay := DetachedLay(t, lay, k, i);
      tree := Without(geo, t, k, i);
      return 0;
    }

    /** Delete a file, or a directory with everything below it: leaf by leaf, at most 4096 of them. */
    method Delete(path: Path) returns (r: int)
      requires Ready() && PathFits(path)
      modifies this
      ensures Ready() && RefsOk(geo, old(tree)) && (r == 0 || r == -1)
      ensures Kin(geo, old(disk), old(tree), disk, tree) && old(tree).orphans <= tree.orphans
      ensures tree.orphans == old(tree).orphans <==> !DeleteHarms(geo, old(tree), path, MAX_PASSES)
      ensures DeleteCode(geo, old(tree), path) == -1 ==> r == -1 && disk == old(disk) && tree == old(tree)
      ensures DeleteCode(geo, old(tree), path) == 0 ==> r == 0 && Deleted(geo, old(disk), old(tree), disk, tree, path)
      ensures DeleteCode(geo, old(tree), path) == -2 ==>
        && FirstGone(geo, old(tree), tree, path) && Resolve(geo, old(tree), path).Some?
        && var (d, i) := Resolve(geo, old(tree), path).value;
           var k := EntAt(old(tree), d, i).first;
           Shallow(old(tree), k, TextSize(path)) ==>
             && (r == 0 <==> Fits(old(tree), k, TextSize(path)) && |SubEntries(old(tree), k)| <= MAX_PASSES)
             && (r == 0 ==> TreeGone(geo, old(disk), old(tree), disk, tree, d, i))
             && (r != 0 ==> OutsideSame(old(tree), tree, k))
             && ((forall c :: !Lost(geo, old(tree), k, c)) ==> tree.orphans == old(tree).orphans)
    {
      hide Inv, RefsOk, EntryOk, StreamOk, CursorOk, Deleted, DeleteCode, Resolve, TreeGone, Fits, Shallow, SubEntries,
        Kin, FirstGone, OutsideSame, Unlinked, OneCode, Target, DeleteHarms, Lost;
      InvRefs(geo, disk, tree, lay);
      rcPath := [];
      NoCursorOk(geo, tree, Rc());
      ghost var x, t, lay0 := disk, tree, lay;
      BaseShort(path);
      TargetFits(geo, t, path);
      KinRefl(geo, x, t);
      CodeRange(geo, t, path);
      r := DeleteOne(path);
      if r == 0 {
        InvRefs(geo, disk, tree, lay);
        KinUnlinked(geo, x, t, lay0, x, t, lay0, disk, tree, path, Ws(), wsData);
        OneHarms(geo, x, t, lay0, disk, tree, path, MAX_PASSES);
      }
      if r == -1 {
        NoHarms(geo, t, path, MAX_PASSES);
      }
      if r == -2 {
        r := DeleteTree(path);
      }
      NoCursorOk(geo, tree, Rc());
    }

    /** The passes over a directory that is not empty. */
    method DeleteTree(path: Path) returns (r: int)
      requires Valid() && StreamOk(geo, disk.heap, tree, Ws(), wsData) && PathFits(path)
      requires RefsOk(geo, tree) && DeleteCode(geo, tree, path) == -2
      modifies this`disk, this`trace, this`tree, this`lay
      ensures Valid() && StreamOk(geo, disk.heap, tree, Ws(), wsData) && (r == 0 || r == -1)
      ensures Kin(geo, old(disk), old(tree), disk, tree) && FirstGone(geo, old(tree), tree, path)
      ensures old(tree).orphans <= tree.orphans
      ensures tree.orphans == old(tree).orphans <==> !DeleteHarms(geo, old(tree), path, MAX_PASSES)
      ensures Resolve(geo, old(tree), path).Some?
      ensures
        var (d, i) := Resolve(geo, old(tree), path).value;
        var k := EntAt(old(tree), d, i).first;
        Shallow(old(tree), k, TextSize(path)) ==>
          && (r == 0 <==> Fits(old(tree), k, TextSize(path)) && |SubEntries(old(tree), k)| <= MAX_PASSES)
          && (r == 0 ==> TreeGone(geo, old(disk), old(tree), disk, tree, d, i))
          && (r != 0 ==> OutsideSame(old(tree), tree, k))
          && ((forall c :: !Lost(geo, old(tree), k, c)) ==> tree.orphans == old(tree).orphans)
    {
      hide Inv, RefsOk, EntryOk, StreamOk, Deleted, DeleteCode, Resolve, ResolveDir, TreeGone, Fits, Shallow,
        SubEntries, Kin, FirstGone, OutsideSame, Unlinked, OneCode, Target, Clearing, NoEntries, Descent, Detached,
        Left, DeleteHarms, Lost;
      ghost var x0, t0, lay0 := disk, tree, lay;
      GeoFacts(geo, disk, tree, lay);
      ClearingStart(geo, disk, tree, lay, path);
      KinRefl(geo, x0, t0);
      BaseShort(path);
      ghost var d, i := Resolve(geo, tree, path).value.0, Resolve(geo, tree, path).value.1;
      ghost var k := EntAt(tree, d, i).first;
      ghost var shallow := Shallow(t0, k, TextSize(path));
      ghost var t1: Tree, spare: seq<nat> := tree, [];
      var guard := 0;
      while guard < MAX_PASSES
        invariant 0 <= guard <= MAX_PASSES && Valid() && StreamOk(geo, disk.heap, tree, Ws(), wsData)
          && RefsOk(geo, tree)
        invariant Kin(geo, x0, t0, disk, tree) && t0.orphans <= tree.orphans && DeleteCode(geo, tree, path) == -2
        invariant DeleteHarms(geo, t0, path, MAX_PASSES)
          <==> tree.orphans != t0.orphans || DeleteHarms(geo, tree, path, MAX_PASSES - guard)
        invariant if guard == 0 then tree == t0 else FirstGone(geo, t0, tree, path)
        invariant shallow ==>
          Clearing(geo, t0, disk, tree, t1, spare, path, d, i, k, guard) && k in tree.dirs && !NoEntries(tree.dirs[k])
      {
        ghost var x1, t2, lay1 := disk, tree, lay;
        var ok := RemoveLeaf(path);
        InvRefs(geo, disk, tree, lay);
        AfterPass(geo, x0, t0, lay0, x1, t2, lay1, disk, tree, path, ok, Ws(), wsData);
        PassHarms(geo, x1, t2, lay1, disk, tree, path, ok, MAX_PASSES - guard);
        if shallow {
          t1, spare := ClearingPass(geo, x0, t0, lay0, x1, t2, lay1, disk, tree, lay, t1, spare, path, d, i, k, guard,
            ok);
        }
        if !ok {
          if shallow {
            ClearingOutside(geo, t0, disk, tree, t1, spare, path, d, i, k, guard);
            if forall c :: !Lost(geo, t0, k, c) {
              ClearingNames(geo, x0, t0, lay0, disk, tree, lay, t1, spare, path, d, i, k, guard);
            }
          }
          return -1;
        }
        ghost var x2, t3, lay2 := disk, tree, lay;
        TargetFits(geo, tree, path);
        if shallow {
          ClearingAt(geo, t0, disk, tree, t1, spare, path, d, i, k, guard + 1);
        }
        r := DeleteOne(path);
        if r == 0 {
          InvRefs(geo, disk, tree, lay);
          KinUnlinked(geo, x0, t0, lay0, x2, t3, lay2, disk, tree, path, Ws(), wsData);
          OneHarms(geo, x2, t3, lay2, disk, tree, path, MAX_PASSES - guard - 1);
          FirstStays(geo, t0, t3, tree, path);
          if shallow {
            ClearingEnds(geo, x0, t0, lay0, x2, t3, lay2, disk, tree, lay, t1, spare, path, d, i, k, guard + 1);
            GoneNames(geo, x0, t0, disk, tree, d, i);
          }
          return;
        }
        CodeRange(geo, t3, path);
        if r != -2 {
          NoHarms(geo, t3, path, MAX_PASSES - guard - 1);
          return;
        }
        guard := guard + 1;
      }
      if shallow {
        ClearingOutside(geo, t0, disk, tree, t1, spare, path, d, i, k, guard);
        ClearingMore(geo, t0, disk, tree, t1, spare, path, d, i, k, guard);
        if forall c :: !Lost(geo, t0, k, c) {
          ClearingNames(geo, x0, t0, lay0, disk, tree, lay, t1, spare, path, d, i, k, guard);
        }
      }
      NoHarms(geo, tree, path, 0);
      return -1;
    }

    // ---- Streaming write ---------------------------------------------------------------

    ghost function Ws(): Stream
      reads this
    {
      Stream(wsActive, wsFirst, wsPrev, wsLen, wsBuf)
    }

    /** Write the waiting bytes to a cluster, padded with zeros, sector by sector. */
    method WriteCluster(c: nat)
      requires c < |disk.heap| && |disk.heap[c]| == geo.ClusBytes() && |wsBuf| <= geo.ClusBytes()
      modifies this`disk, this`trace
      requires geo.spc > 0
      ensures disk == WithCluster(old(disk), c, Padded(wsBuf, geo.ClusBytes()))
      ensures Extends(old(trace), trace) && |trace| > |old(trace)| && trace[|trace| - 1] == disk
    {
      hide Zeros, Padded;
      var all := Padded(wsBuf, geo.ClusBytes());
      var s := 0;
      while s < geo.spc
        invariant 0 <= s <= geo.spc && c < |disk.heap| && OnlyCluster(old(disk), disk, c)
        invariant forall i :: 0 <= i < 512 * s ==> disk.heap[c][i] == all[i]
        invariant Extends(old(trace), trace) && (s > 0 ==> |trace| > |old(trace)| && trace[|trace| - 1] == disk)
      {
        var off := SECTOR * s;
        var want := if off < |wsBuf| then Min(|wsBuf| - off, SECTOR) else 0;
        var sec := (if want > 0 then wsBuf[off..off + want] else []) + Zeros(SECTOR - want);
        PaddedSector(wsBuf, geo.ClusBytes(), off, want);
        SpliceAt(disk.heap[c], off, sec);
        WriteSector(c, s, sec);
        s := s + 1;
      }
      assert disk.heap[c] == all;
      assert disk.heap == old(disk).heap[c := all];
    }

    /** Give the waiting bytes a cluster of their own, linked behind the stream's last one. */
    method FlushCluster() returns (ok: bool)
      requires Valid() && Streaming(geo, disk.heap, tree, Ws(), wsData)
      modifies this`disk, this`trace, this`allocHint, this`tree, this`wsFirst, this`wsPrev, this`wsBuf
      ensures Extends(old(trace), trace)
      ensures !ok ==>
        && disk == old(disk) && trace == old(trace) && tree == old(tree) && Ws() == old(Ws())
        && VolumeFull(geo, disk)
      ensures ok ==> |trace| > |old(trace)| && trace[|trace| - 1] == disk
      ensures ok ==> Valid() && wsBuf == []
      ensures old(wsFirst) != 0 ==> wsFirst == old(wsFirst)
      ensures ok ==> Laid(disk.heap, tree, wsFirst, wsPrev, wsData + Zeros(geo.ClusBytes() - |old(wsBuf)|))
      ensures ok ==> StreamFrame(old(tree), old(wsFirst), old(disk).heap, tree, wsFirst, disk.heap)
    {
      hide Inv, SpaceOk, RefsOk, LayoutOk, Laid, StreamFrame, LooseAdded, DiskOk;
      ghost var x, t, b := disk, tree, Padded(wsBuf, geo.ClusBytes());
      ghost var bytes := wsData[..|wsData| - |wsBuf|];
      assert bytes + b == wsData + Zeros(geo.ClusBytes() - |wsBuf|);
      FlushFacts(geo, disk, tree, lay, wsFirst, wsPrev, bytes);
      var c := AllocClus();
      if c == 0 {
        return false;
      }
      BitsFit(geo, x, c);
      if wsPrev != 0 {
        LaidMore(geo, x, tree, lay, wsFirst, wsPrev, c, b, bytes);
        WriteFat(wsPrev, c);
        tree := LooseExtended(tree, wsFirst, c);
      } else {
        LaidFirst(geo, x, tree, lay, c, b, bytes);
        tree := LooseAdded(tree, c);
      }
      if wsFirst == 0 {
        wsFirst := c;
      }
      WriteCluster(c);
      wsPrev, wsBuf := c, [];
      return true;
    }

    /** The stream's clusters are given back. */
    method DropStream(ghost prev: nat, ghost bytes: seq<Byte>)
      requires Valid() && Laid(disk.heap, tree, wsFirst, prev, bytes)
      modifies this`disk, this`trace, this`tree
      ensures Valid() && tree == Sans(old(tree), wsFirst) && tree.loose == {}
      ensures disk.heap == old(disk).heap && Extends(old(trace), trace)
    {
      hide SpaceOk, RefsOk, LayoutOk, Freed, Extends, LooseDropped, InHeap, Inv;
      InvParts(geo, disk, tree, lay);
      if wsFirst != 0 {
        LooseRange(geo, disk, tree, wsFirst);
        StreamDrop(geo, disk, tree, lay, wsFirst);
        FreeChain(wsFirst, false, 0);
        DroppedParts(tree, wsFirst);
        tree := LooseDropped(tree, wsFirst);
      } else {
        ExtendsRefl(trace);
        SansNone(tree);
      }
    }

    /** Open a stream to a path, retiring an existing file or empty directory of that name. */
    method WriteOpen(path: Path) returns (r: int)
      requires Ready() && PathFits(path) && SpellablePath(path)
      modifies this
      ensures Ready() && RefsOk(geo, old(tree))
      ensures r == 0 <==>
        !old(wsActive) && geo.ClusBytes() <= STREAM_BUFFER && DeleteCode(geo, old(tree), path) != -2
      ensures r != 0 ==> r == -1 && disk == old(disk) && tree == old(tree) && Ws() == old(Ws()) && wsData == old(wsData)
      ensures r == 0 ==> wsActive && wsPath == path && wsData == [] && wsFirst == 0
      ensures DeleteCode(geo, old(tree), path) != 0 || r != 0 ==>
        && disk == old(disk) && tree == old(tree)
        && trace == old(trace) && lay == old(lay)
      ensures r == 0 && DeleteCode(geo, old(tree), path) == 0 ==> Deleted(geo, old(disk), old(tree), disk, tree, path)
      ensures SlotsKept(old(lay), lay) && Logged(old(disk), old(trace), trace, disk)
    {
      hide Inv, RefsOk, Deleted, DeleteCode, CursorOk, StreamOk, Streaming, Resolve, Target, OneCode, Kin, Unlinked,
        AllSlots;
      InvRefs(geo, disk, tree, lay);
      SlotsSame(lay);
      LoggedRefl(disk, trace);
      if wsActive {
        return -1;
      }
      if geo.ClusBytes() > STREAM_BUFFER {
        return -1;
      }
      ghost var x, t, lay0 := disk, tree, lay;
      StreamIdle(geo, disk.heap, tree, Ws(), wsData);
      BaseShort(path);
      TargetFits(geo, t, path);
      CodeRange(geo, t, path);
      KinRefl(geo, x, t);
      r := DeleteOne(path);
      if r == -2 {
        return -1;
      }
      if r == 0 {
        InvRefs(geo, disk, tree, lay);
        KinUnlinked(geo, x, t, lay0, x, t, lay0, disk, tree, path, Ws(), wsData);
        DeletedDirs(geo, x, t, disk, tree, path);
      }
      StartStream(path);
      return 0;
    }

    /** Set the stream fields for a new stream. */
    method StartStream(path: Path)
      requires Valid() && tree.loose == {} && geo.ClusBytes() <= STREAM_BUFFER && SpellablePath(path)
      modifies this`wsActive, this`wsPath, this`wsFirst, this`wsPrev, this`wsLen, this`wsBuf, this`wsData, this`rcPath
      ensures Ready() && wsActive && wsPath == path && wsData == [] && wsFirst == 0
    {
      hide Inv, CursorOk, StreamOk, SpellablePath;
      wsActive, wsPath, wsFirst, wsPrev, wsLen, wsBuf := true, path, 0, 0, 0, [];
      wsData := [];
      rcPath := [];
      GeoFacts(geo, disk, tree, lay);
      StreamOpened(geo, disk.heap, tree);
      NoCursorOk(geo, tree, Rc());
    }

    /** What closing a stream needs: more may be waiting than between operations. */
    ghost predicate Closable()
      reads this
    {
      && Valid() && (wsActive ==> SpellablePath(wsPath))
      && if wsActive then Streaming(geo, disk.heap, tree, Ws(), wsData) else tree.loose == {}
    }

    /** Abandon the stream: its clusters are given back and nothing of it remains. */
    method Abort()
      requires Closable() && wsActive
      modifies this
      ensures Ready() && !wsActive
      ensures tree == Sans(old(tree), old(wsFirst)) && disk.heap == old(disk).heap && Extends(old(trace), trace)
      ensures lay == old(lay)
    {
      hide Inv, Laid, Extends, Sans;
      wsActive, rcPath := false, [];
      DropStream(wsPrev, wsData[..|wsData| - |wsBuf|]);
    }

    /** Flush a full buffer; when no cluster is left, abandon the stream. */
    method FlushFull(ghost t0: Tree, ghost f0: nat, ghost x0: Disk, ghost tr0: seq<Disk>) returns (ok: bool)
      requires Closable() && wsActive && |wsBuf| == geo.ClusBytes()
      requires StreamFrame(t0, f0, x0.heap, tree, wsFirst, disk.heap)
      requires Extends(tr0, trace) && Latest(x0, tr0, trace, disk)
      modifies this
      ensures ok ==>
        && Closable() && wsActive && wsPath == old(wsPath) && wsData == old(wsData) && wsBuf == []
        && Rc() == old(Rc())
      ensures ok ==> StreamFrame(t0, f0, x0.heap, tree, wsFirst, disk.heap)
      ensures ok ==> Extends(tr0, trace) && Latest(x0, tr0, trace, disk)
      ensures !ok ==> Ready() && !wsActive && tree == Sans(t0, f0) && HeapKept(tree.at, x0.heap, disk.heap)
      ensures !ok ==> RanOut(geo, x0, tr0, trace) && Extends(tr0, trace)
      ensures lay == old(lay)
    {
      hide Inv, Laid, StreamFrame, CursorOk, FullDuring, VolumeFull, Sans, HeapKept, RefsOk;
      ok := FlushCluster();
      if !ok {
        ghost var tr1, first := trace, wsFirst;
        Abort();
        ExtendsTrans(tr0, tr1, trace);
        RanOutNow(geo, x0, tr0, tr1, old(disk), trace);
        AbortFrame(t0, f0, x0.heap, old(tree), first, disk.heap);
        return;
      }
      StreamFrameTrans(t0, f0, x0.heap, old(tree), old(wsFirst), old(disk).heap, tree, wsFirst, disk.heap);
      ExtendsTrans(tr0, old(trace), trace);
      Flushed(geo, disk.heap, tree, Ws(), wsData);
    }

    /** Append bytes to the stream, cluster by cluster. When the volume is full the stream is dropped. */
    method WriteAppend(data: seq<Byte>) returns (r: int)
      requires Ready()
      modifies this
      ensures Ready() && (r == 0 || r == -1)
      ensures !old(wsActive) ==> r == -1 && disk == old(disk) && tree == old(tree)
      ensures lay == old(lay) && Extends(old(trace), trace)
      ensures r == 0 ==> wsActive && wsPath == old(wsPath) && wsData == old(wsData) + data
      ensures r == 0 ==> Logged(old(disk), old(trace), trace, disk)
      ensures r == 0 ==> StreamFrame(old(tree), old(wsFirst), old(disk).heap, tree, wsFirst, disk.heap)
      ensures r != 0 && old(wsActive) ==>
        && !wsActive && tree == Sans(old(tree), old(wsFirst)) && HeapKept(tree.at, old(disk).heap, disk.heap)
        && RanOut(geo, old(disk), old(trace), trace)
    {
      hide Inv, Streaming, StreamFrame, CursorOk, FullDuring, VolumeFull, Sans, HeapKept, RefsOk, RanOut, Latest,
        Extends, Logged;
      ExtendsRefl(trace);
      if !wsActive {
        return -1;
      }
      StreamFrameRefl(tree, wsFirst, disk.heap);
      StreamLoose(geo, disk.heap, tree, Ws(), wsData);
      ExtendsRefl(trace);
      LatestRefl(disk, trace);
      var src := data;
      while src != []
        invariant Valid() && wsActive && wsPath == old(wsPath) && Rc() == old(Rc())
        invariant Streaming(geo, disk.heap, tree, Ws(), wsData) && |wsBuf| < geo.ClusBytes()
        invariant wsData + src == old(wsData) + data
        invariant StreamFrame(old(tree), old(wsFirst), old(disk).heap, tree, wsFirst, disk.heap)
        invariant Extends(old(trace), trace) && Latest(old(disk), old(trace), trace, disk) && lay == old(lay)
        decreases |src|
      {
        var take := Min(|src|, geo.ClusBytes() - |wsBuf|);
        TakeBytes(geo, disk.heap, tree, Ws(), wsData, src, take);
        wsBuf := wsBuf + src[..take];
        wsLen := (wsLen + take) % TWO32;
        wsData := wsData + src[..take];
        src := src[take..];
        if |wsBuf| == geo.ClusBytes() {
          var ok := FlushFull(old(tree), old(wsFirst), old(disk), old(trace));
          if !ok {
            return -1;
          }
        }
      }
      StreamLoose(geo, disk.heap, tree, Ws(), wsData);
      LatestLogged(old(disk), old(trace), trace, disk);
      CursorFrame(geo, old(disk), old(tree), old(lay), old(wsFirst), disk, tree, lay, wsFirst, Rc());
      return 0;
    }

    /** Close the stream: abandon it, or write out what is waiting and give it its entry set. */
    method WriteClose(commit: bool) returns (r: int)
      requires Ready()
      modifies this
      ensures RefsOk(geo, old(tree)) && (r == 0 || r == -1) && !wsActive
      ensures !old(wsActive) ==> r == -1 && disk == old(disk) && tree == old(tree) && Ready()
      ensures old(wsActive) && !commit ==>
        r == 0 && Ready() && tree == Sans(old(tree), old(wsFirst)) && disk.heap == old(disk).heap
      ensures old(wsActive) && commit && CommitRefused(geo, old(tree), old(lay), old(wsPath)) ==>
        r == -1 && Ready() && tree == Sans(old(tree), old(wsFirst)) && HeapKept(tree.at, old(disk).heap, disk.heap)
      ensures old(wsActive) && commit && !CommitRefused(geo, old(tree), old(lay), old(wsPath)) ==>
        r == 0 || RanOut(geo, old(disk), old(trace), trace)
      ensures r == 0 && old(wsActive) && commit ==>
        Ready() && Committed(geo, old(disk).heap, old(tree), disk.heap, tree, old(wsPath), wsFirst, old(wsData))
      ensures Ready() || RanOut(geo, old(disk), old(trace), trace)
      ensures Extends(old(trace), trace) && (commit && old(wsFirst) != 0 ==> wsFirst == old(wsFirst))
      ensures r == 0 && old(wsActive) && commit ==>
        Filed(geo, old(tree), lay, old(wsPath), wsFirst, |old(wsData)| % TWO32)
    {
      hide Filed, Inv, Laid, StreamFrame, CursorOk, FullDuring, VolumeFull, Sans, HeapKept, RefsOk, Committed,
        CommitRefused;
      InvRefs(geo, disk, tree, lay);
      ExtendsRefl(trace);
      if !wsActive {
        return -1;
      }
      if !commit {
        Abort();
        return 0;
      }
      ghost var bytes := wsData[..|wsData| - |wsBuf|];
      ghost var x0, t0, f0, tr0, data := disk, tree, wsFirst, trace, wsData;
      wsActive, rcPath := false, [];
      StreamFrameRefl(tree, wsFirst, disk.heap);
      LaidLoose(disk.heap, tree, wsFirst, wsPrev, bytes);
      LaidFile(disk.heap, tree, wsFirst, wsPrev, bytes);
      ghost var lay0 := lay;
      if |wsBuf| > 0 {
        var ok := FlushCluster();
        if !ok {
          DropStream(wsPrev, bytes);
          RanOutNow(geo, x0, tr0, tr0, x0, trace);
          HeapSame(tree.at, x0.heap, disk.heap);
          NoCursorOk(geo, tree, Rc());
          return -1;
        }
        bytes := wsData + Zeros(geo.ClusBytes() - |old(wsBuf)|);
      } else {
        assert wsData[..|wsData|] == wsData;
        ExtendsRefl(trace);
      }
      ghost var x1, t1, f1, tr1 := disk, tree, wsFirst, trace;
      InvRefs(geo, disk, tree, lay);
      LaidLoose(disk.heap, tree, wsFirst, wsPrev, bytes);
      StreamRefusedSame(geo, x0, t0, lay, f0, x1, t1, f1, wsPath);
      AbortFrame(t0, f0, x0.heap, t1, f1, x1.heap);
      r := CommitStream(wsPrev, bytes);
      ExtendsTrans(tr0, tr1, trace);
      if r == 0 {
        FiledBefore(geo, x0, t0, lay0, f0, x1, t1, f1, lay, wsPath, wsFirst, |data| % TWO32);
        CommittedBefore(geo, x0, t0, lay0, f0, x1, t1, f1, disk.heap, tree, wsPath, wsFirst, data);
      } else if !CommitRefused(geo, t0, lay0, wsPath) {
        RanOutLater(geo, x0, tr0, tr1, trace);
      }
    }

    /** Build the stream's entry set and append it at the end marker; give the clusters back when
        the directory cannot grow. */
    method CommitEntry(dr: DirRef, eod: Loc, ghost ci: nat, ghost prev: nat, ghost bytes: seq<Byte>) returns (r: int)
      requires Valid() && !wsActive && rcPath == [] && wsPath != [] && Spellable(wsPath[|wsPath| - 1])
      requires Laid(disk.heap, tree, wsFirst, prev, bytes) && wsData <= bytes && wsLen == |wsData| % TWO32
      requires RefTo(geo, disk.heap, tree, lay, dr) && dr.first in tree.own && dr.first in lay
      requires RefsOk(geo, tree) && ResolveDir(geo, tree, wsPath[..|wsPath| - 1]) == Some(dr.first)
      requires CursorAt(tree.own[dr.first].chain, geo.Slots(), eod, ci, |AllSlots(lay[dr.first])|)
      modifies this`disk, this`trace, this`allocHint, this`tree, this`lay
      ensures r == 0 ==> Ready() && Committed(geo, old(disk).heap, old(tree), disk.heap, tree, wsPath, wsFirst, wsData)
      ensures r == 0 || (r == -1 && FullDuring(geo, old(trace), trace))
      ensures Extends(old(trace), trace)
      ensures r == 0 ==> Stored(lay, dr.first, Base(wsPath), false, wsFirst, wsLen, false)
    {
      hide Stored, Inv, Laid, RefsOk, Committed, RefTo, NextAt, AppendDone, GrownFrom, FilesKept, ShownThrough,
        CursorAt, DirHolds, FullDuring, Appending, Extends, SetOk, BuiltSet, Attachable, AllSlots, EntryOf, Decode,
        PutAll, CursorOn, CursorOk, SpaceOk, Attached, StoredUnits, StreamOk, Released, Reach, ReadBack, Spellable,
        SetShape, Decodable;
      ghost var t0, h0, d, tr0 := tree, disk.heap, dr.first, trace;
      CommitSize(geo, disk, tree, lay, wsFirst, prev, bytes);
      var base := Base(wsPath);
      BuiltFile(base, wsFirst, wsLen);
      var ents := BuildSet(base, ATTR_ARCHIVE, wsFirst, wsLen, 1);
      AppendStart(geo, disk, tree, lay, dr, eod, ents, ci);
      ghost var start := AppendPos(tree, disk.heap, lay[d], ents, 0, ci);
      var ok := AppendEntries(dr, eod, ents, start);
      ShownExtends(tr0, trace, t0);
      if !ok {
        GiveUp(d, t0, h0, tr0, prev, bytes);
        return -1;
      }
      TakeEntry(d, t0, h0, start.items, ents, base, prev, bytes);
      return 0;
    }

    /** The appended set names the stream's clusters. */
    ghost method TakeEntry(d: nat, t0: Tree, h0: Heap, items: seq<Item>, ents: seq<Slot>, base: Name, prev: nat,
        bytes: seq<Byte>)
      requires AppendDone(geo, disk, tree, lay, d, t0, h0, items, ents) && !wsActive && rcPath == []
      requires Laid(h0, t0, wsFirst, prev, bytes) && wsData <= bytes && wsLen == |wsData| % TWO32 && wsFirst < TWO32
      requires wsFirst != 0 ==> wsFirst in t0.own && |bytes| == |t0.own[wsFirst].chain| * geo.ClusBytes()
      requires RefsOk(geo, t0) && wsPath != [] && base == wsPath[|wsPath| - 1] && Decodable(base) && base != []
        && ReadBack(base) != [] && ResolveDir(geo, t0, wsPath[..|wsPath| - 1]) == Some(d)
      requires ents == BuiltSet(StoredUnits(base), ATTR_ARCHIVE, wsFirst, wsLen, 1)
      requires SetOk(ents) && EntryOf(ents) == Entry(ReadBack(base), false, wsFirst, wsLen, false)
      modifies this`tree, this`lay
      ensures Ready() && Committed(geo, h0, t0, disk.heap, tree, wsPath, wsFirst, wsData)
      ensures Stored(lay, d, base, false, wsFirst, wsLen, false)
    {
      hide Inv, Laid, RefsOk, Committed, AppendDone, SetOk, BuiltSet, EntryOf, Decode, PutAll, CursorOk, Attached,
        StoredUnits, StreamOk, ReadBack, Decodable, ResolveDir, Stored;
      var e := Entry(ReadBack(base), false, wsFirst, wsLen, false);
      CommitDone(geo, t0, h0, disk, tree, lay, d, wsFirst, prev, bytes, e, items, ents, wsPath, wsData);
      lay := lay[d := items + [Live(ents)]];
      StoredIntro(lay, d, items, base, false, wsFirst, wsLen, false);
      tree := Attached(tree, d, e);
      IdleOk(geo, disk.heap, tree, Ws(), wsData);
      NoCursorOk(geo, tree, Rc());
    }

    /** The directory is full: the stream's clusters are released. */
    method GiveUp(ghost d: nat, ghost t0: Tree, ghost h0: Heap, ghost tr0: seq<Disk>, ghost prev: nat,
        ghost bytes: seq<Byte>)
      requires Laid(h0, t0, wsFirst, prev, bytes) && GrownFrom(t0, tree, d) && Appending(geo, disk, tree, lay, d)
      requires FullDuring(geo, tr0, trace) && Extends(tr0, trace)
      modifies this`disk, this`trace
      ensures FullDuring(geo, tr0, trace) && Extends(tr0, trace)
    {
      hide Laid, GrownFrom, Appending, FullDuring, Extends, Released, Reach, SpaceOk;
      ghost var tr1 := trace;
      FailedStream(geo, t0, h0, disk, tree, lay, d, wsFirst, prev, bytes);
      FreeChain(wsFirst, false, 0);
      FullLater(geo, tr0, tr0, tr1, trace);
      ExtendsTrans(tr0, tr1, trace);
    }

    /** Build the stream's entry set and append it to its directory. */
    method CommitStream(ghost prev: nat, ghost bytes: seq<Byte>) returns (r: int)
      requires Valid() && !wsActive && rcPath == [] && SpellablePath(wsPath) && RefsOk(geo, tree)
      requires Laid(disk.heap, tree, wsFirst, prev, bytes) && wsData <= bytes && wsLen == |wsData| % TWO32
      modifies this`disk, this`trace, this`allocHint, this`tree, this`lay
      ensures r == 0 ==> Ready() && Committed(geo, old(disk).heap, old(tree), disk.heap, tree, wsPath, wsFirst, wsData)
      ensures CommitRefused(geo, old(tree), old(lay), wsPath) ==>
        r == -1 && Ready() && tree == Sans(old(tree), wsFirst) && disk.heap == old(disk).heap
      ensures !CommitRefused(geo, old(tree), old(lay), wsPath) ==>
        || r == 0
        || (r == -1 && FullDuring(geo, old(trace), trace))
      ensures Extends(old(trace), trace)
      ensures r == 0 ==> Filed(geo, old(tree), lay, wsPath, wsFirst, wsLen)
    {
      hide Stored, Inv, Laid, Sans, RefsOk, Committed, Scan, RefTo, NextAt, AppendDone, GrownFrom, FilesKept,
        ShownThrough, CursorAt, DirHolds, FullDuring, Appending, Extends, SetOk, BuiltSet, Attachable, HasEnd,
        AllSlots, ResolveDir;
      if wsPath == [] {
        DropStream(prev, bytes);
        return -1;
      }
      var dr := DirRefResolve(wsPath[..|wsPath| - 1]);
      if dr == None {
        DropStream(prev, bytes);
        return -1;
      }
      var d := dr.value.first;
      var sc, _ := ScanDir(d, None);
      ghost var ci := EodCursor(geo, disk, tree, lay, d);
      EndExact(geo, disk, tree, lay, d);
      if !sc.end.Eod? {
        DropStream(prev, bytes);
        return -1;
      }
      r := CommitEntry(dr.value, sc.end.loc, ci, prev, bytes);
    }

    /** Create or overwrite a file in one go. */
    method WriteFile(path: Path, data: seq<Byte>) returns (r: int)
      requires Ready() && PathFits(path) && SpellablePath(path)
      modifies this
      ensures RefsOk(geo, old(tree)) && (r == 0 || r == -1) && (Ready() || RanOut(geo, old(disk), old(trace), trace))
      ensures old(OpenRefused(path)) ==>
        r == -1 && Ready() && disk == old(disk) && tree == old(tree) && trace == old(trace) && Ws() == old(Ws())
          && wsData == old(wsData)
      ensures !old(OpenRefused(path)) && CommitRefused(geo, old(tree), old(lay), path) ==>
        r == -1 && Ready() && Reverted(geo, old(disk), old(tree), disk, tree, path)
      ensures !old(OpenRefused(path)) && !CommitRefused(geo, old(tree), old(lay), path) ==>
        || r == 0
        || RanOut(geo, old(disk), old(trace), trace)
      ensures r == 0 ==>
        && Ready() && !wsActive
        && exists x1, t1 :: Overwrote(geo, old(disk), old(tree), x1, t1, disk.heap, tree, path, wsFirst, data)
      ensures r == 0 ==> Holds(lay, path, wsFirst, |data| % TWO32)
    {
      hide Filed, Holds, Inv, Laid, StreamFrame, CursorOk, FullDuring, VolumeFull, Sans, HeapKept, RefsOk, Committed,
        Deleted, DeleteCode, Overwrote, RanOut, CommitRefused, Reverted, Extends, Latest, SlotsKept, Logged;
      InvRefs(geo, disk, tree, lay);
      ghost var x0, t0, lay0, tr0 := disk, tree, lay, trace;
      CodeRange(geo, t0, path);
      r := WriteOpen(path);
      if r != 0 {
        return -1;
      }
      ghost var x1, t1, lay1, tr1 := disk, tree, lay, trace;
      InvRefs(geo, disk, tree, lay);
      OpenedParts(geo, x0, t0, lay0, x1, t1, lay1, path);
      LaidLoose(disk.heap, tree, wsFirst, wsPrev, wsData[..|wsData| - |wsBuf|]);
      r := WriteAppend(data);
      if r != 0 {
        SansNothing(t1);
        RevertedIntro(geo, x0, t0, x1, t1, disk, tree, path);
        RanOutFrom(geo, x0, tr0, x1, tr1, trace);
        return -1;
      }
      ghost var x2, t2, f2, tr2 := disk, tree, wsFirst, trace;
      InvRefs(geo, disk, tree, lay);
      LaidLoose(disk.heap, tree, wsFirst, wsPrev, wsData[..|wsData| - |wsBuf|]);
      StreamRefusedSame(geo, x1, t1, lay1, 0, x2, t2, f2, path);
      AbortFrame(t1, 0, x1.heap, t2, f2, x2.heap);
      assert wsData == data;
      r := WriteClose(true);
      LoggedTrans(x0, tr0, x1, tr1, x2, tr2);
      RanOutFrom(geo, x0, tr0, x2, tr2, trace);
      if r == 0 {
        FiledHolds(geo, t2, lay, path, wsFirst, |data| % TWO32);
        CommittedBefore(geo, x1, t1, lay1, 0, x2, t2, f2, disk.heap, tree, path, wsFirst, data);
        OverwroteIntro(geo, x0, t0, x1, t1, disk.heap, tree, path, wsFirst, data);
      } else if CommitRefused(geo, t0, lay0, path) {
        SansNothing(t1);
        HeapTrans(tree.at, x1.heap, x2.heap, disk.heap);
        RevertedIntro(geo, x0, t0, x1, t1, disk, tree, path);
      }
    }

    /** Why a file cannot be opened for writing. */
    ghost predicate OpenRefused(path: Path)
      requires Valid()
      reads this
    {
      InvRefs(geo, disk, tree, lay);
      wsActive || geo.ClusBytes() > STREAM_BUFFER || DeleteCode(geo, tree, path) == -2
    }

    // ---- Directories -----------------------------------------------------------------------

    /** Make a directory: refuse a taken name, zero a cluster of its own, append its entry set. */
    method Mkdir(path: Path) returns (r: int)
      requires Ready() && PathFits(path) && SpellablePath(path)
      modifies this
      ensures RefsOk(geo, old(tree)) && (r == 0 || r == -1) && (Ready() || FullDuring(geo, old(trace), trace))
      ensures MkdirRefused(geo, old(tree), old(lay), path) ==>
        r == -1 && Ready() && disk == old(disk) && tree == old(tree) && lay == old(lay) && trace == old(trace)
      ensures path == [] ==> r == -1 && Ready() && tree == old(tree)
      ensures path != [] && !MkdirRefused(geo, old(tree), old(lay), path) ==>
        || r == 0
        || RanOut(geo, old(disk), old(trace), trace)
      ensures r == 0 ==> Ready() && Resolve(geo, old(tree), path) == None
      ensures r == 0 ==> path != [] && ResolveDir(geo, old(tree), Parent(path)).Some?
      ensures r == 0 ==> exists c ::
        && DirMade(geo, old(disk).heap, old(tree), disk.heap, tree, path, c)
        && Stored(lay, ResolveDir(geo, old(tree), Parent(path)).value, path[|path| - 1], true, c, geo.ClusBytes(),
             false)
    {
      hide Stored, Inv, RefsOk, LayoutOk, EntryOk, Scan, RefTo, PlacedAt, Editable, CursorAt, StreamOk, CursorOk,
        DirMade, FullDuring, Resolve, ResolveDir, Find, Spellable, HasEnd, AllSlots, VolumeFull;
      InvRefs(geo, disk, tree, lay);
      rcPath := [];
      NoCursorOk(geo, tree, Rc());
      SplitResolves(geo, tree, path);
      var dr := DirRefResolve(Parent(path));
      if dr == None {
        return -1;
      }
      var d := dr.value.first;
      var sc, _ := ScanDir(d, Some(Base(path)));
      LookupCases(geo, disk, tree, lay, d, Base(path));
      if sc.Hit? {
        return -1;
      }
      var full, _ := ScanDir(d, None);
      ghost var ci := EodCursor(geo, disk, tree, lay, d);
      EndExact(geo, disk, tree, lay, d);
      if !full.end.Eod? {
        return -1;
      }
      ghost var made;
      r, made := MakeDir(dr.value, full.end.loc, path, ci);
    }

    /** The writes of a mkdir. */
    method MakeDir(dr: DirRef, eod: Loc, path: Path, ghost ci: nat) returns (r: int, ghost made: nat)
      requires Ready() && rcPath == [] && SpellablePath(path)
      requires RefTo(geo, disk.heap, tree, lay, dr) && dr.first in tree.own && dr.first in lay
      requires CursorAt(tree.own[dr.first].chain, geo.Slots(), eod, ci, |AllSlots(lay[dr.first])|)
      requires RefsOk(geo, tree) && ResolveDir(geo, tree, Parent(path)) == Some(dr.first)
      modifies this`disk, this`trace, this`allocHint, this`tree, this`lay
      ensures (r == 0 || r == -1) && (Ready() || FullDuring(geo, old(trace), trace))
      ensures path == [] ==> r == -1 && Ready() && tree == old(tree)
      ensures path != [] ==> r == 0 || RanOut(geo, old(disk), old(trace), trace)
      ensures r == 0 ==> Ready() && path != []
      ensures r == 0 ==> DirMade(geo, old(disk).heap, old(tree), disk.heap, tree, path, made)
      ensures r == 0 ==> Stored(lay, dr.first, path[|path| - 1], true, made, geo.ClusBytes(), false)
    {
      hide Stored, Inv, RefsOk, RefTo, CursorAt, StreamOk, DirMade, FullDuring, ResolveDir, Spellable, LooseDir,
        NewLoose, CursorOk, BuiltSet, StoredUnits, SetOk, EntryOf, PutAll, Decode;
      GeoDisk(geo, disk, tree, lay);
      ghost var x0, t0, lay0 := disk, tree, lay;
      var c := FreshCluster();
      made := c;
      if c == 0 {
        return -1, made;
      }
      BitsFit(geo, x0, c);
      if path == [] {
        // The set builder refuses the empty name.
        ReleaseFresh(c, x0);
        return -1, made;
      }
      LooseDirInv(geo, x0, tree, lay, c);
      RefToLoose(geo, x0, tree, lay, dr, c);
      LooseDirAt(geo, x0, tree, lay, c, dr.first);
      tree, lay := LooseDir(tree, c), lay[c := []];
      SpellableUnits(path[|path| - 1]);
      var ents := BuildSet(path[|path| - 1], ATTR_DIR, c, geo.ClusBytes(), 1);
      BuiltSetDecodes(StoredUnits(path[|path| - 1]), ATTR_DIR, c, geo.ClusBytes(), 1);
      ghost var tr1, items := trace, lay[dr.first];
      r := NameDir(dr, eod, ents, path, c, x0, t0, lay0, ci);
      if r != 0 {
        ExtendsRefl(trace);
        FullLater(geo, old(trace), tr1, trace, trace);
      } else {
        StoredIntro(lay, dr.first, items, path[|path| - 1], true, c, geo.ClusBytes(), false);
      }
    }

    /** Allocate a cluster and fill it with zeros. */
    method FreshCluster() returns (c: nat)
      requires geo.Valid() && DiskOk(geo, disk)
      modifies this`disk, this`trace, this`allocHint
      ensures c == 0 ==> disk == old(disk) && trace == old(trace) && VolumeFull(geo, disk)
      ensures c != 0 ==>
        && 2 <= c < geo.Total() && |old(disk).bits| == |old(disk).fat| == |old(disk).heap| == geo.Total()
        && !old(disk).bits[c]
      ensures c != 0 ==> disk == NewLoose(old(disk), c, Zeros(geo.ClusBytes())) && |trace| >= |old(trace)|
    {
      c := AllocClus();
      if c != 0 {
        BitsFit(geo, old(disk), c);
        ZeroCluster(c);
      }
    }

    /** Give a fresh cluster back. */
    method ReleaseFresh(c: nat, ghost x0: Disk)
      requires FreshIn(geo, x0, tree, lay, c)
      requires StreamOk(geo, x0.heap, tree, Ws(), wsData) && (wsActive ==> SpellablePath(wsPath)) && rcPath == []
      requires disk == NewLoose(x0, c, Zeros(geo.ClusBytes()))
      modifies this`disk, this`trace
      ensures Ready()
    {
      hide Inv, StreamOk;
      WriteBit(c, false);
      WriteFat(c, 0);
      ScratchDisk(geo, x0, disk, c);
      ScratchInv(geo, x0, disk, tree, lay, c);
      ScratchStream(geo, x0, disk, tree, lay, c, Ws(), wsData);
      NoCursorOk(geo, tree, Rc());
    }

    /** Append the new directory's entry set. */
    method NameDir(dr: DirRef, eod: Loc, ents: seq<Slot>, ghost path: Path, ghost c: nat, ghost x0: Disk,
        ghost t0: Tree, ghost lay0: Layout, ghost ci: nat) returns (r: int)
      requires FreshIn(geo, x0, t0, lay0, c)
      requires disk == NewLoose(x0, c, Zeros(geo.ClusBytes())) && tree == LooseDir(t0, c) && Valid() && rcPath == []
      requires StreamOk(geo, x0.heap, t0, Ws(), wsData) && (wsActive ==> SpellablePath(wsPath))
      requires RefTo(geo, disk.heap, tree, lay, dr) && dr.first in tree.own && dr.first in lay
      requires CursorAt(tree.own[dr.first].chain, geo.Slots(), eod, ci, |AllSlots(lay[dr.first])|)
      requires RefsOk(geo, t0) && path != [] && Spellable(path[|path| - 1])
        && ResolveDir(geo, t0, Parent(path)) == Some(dr.first)
      requires SetOk(ents) && |ents| >= 2 && Decodable(path[|path| - 1])
      requires EntryOf(ents) == Entry(ReadBack(path[|path| - 1]), true, c, geo.ClusBytes(), false)
      modifies this`disk, this`trace, this`allocHint, this`tree, this`lay
      ensures r == 0 || (r == -1 && FullDuring(geo, old(trace), trace))
      ensures r == 0 ==> Ready() && DirMade(geo, x0.heap, t0, disk.heap, tree, path, c)
      ensures r == 0 ==> dr.first in lay && lay[dr.first] == old(lay)[dr.first] + [Live(ents)]
    {
      hide Inv, RefsOk, RefTo, CursorAt, StreamOk, DirMade, FullDuring, ResolveDir, LooseDir, NewLoose, AppendDone,
        Appending, GrownFrom, NextAt, ShownThrough, Attached, BuiltSet, SetOk, EntryOf, AllSlots, PutAll, Decode;
      ghost var d, items, base := dr.first, lay[dr.first], path[|path| - 1];
      ghost var h1 := disk.heap;
      ghost var e := Entry(ReadBack(base), true, c, geo.ClusBytes(), false);
      SetShaped(ents);
      AppendStart(geo, disk, tree, lay, dr, eod, ents, ci);
      var ok := AppendEntries(dr, eod, ents, AppendPos(tree, disk.heap, items, ents, 0, ci));
      if !ok {
        return -1;
      }
      DirDone(geo, x0, t0, lay0, c, disk, tree, lay, d, items, ents, e, path);
      DoneGrown(geo, disk, tree, lay, d, LooseDir(t0, c), h1, items, ents);
      ResolvedListed(geo, t0, Parent(path), d);
      StreamMade(geo, x0, t0, lay0, c, disk.heap, tree, d, e, Ws(), wsData);
      lay := lay[d := items + [Live(ents)]];
      tree := Attached(tree, d, e);
      NoCursorOk(geo, tree, Rc());
      return 0;
    }

    // ---- Rename --------------------------------------------------------------------------

    /** Rename inside a directory: write a second entry set under the new name, then retire the old
        one. -2: bad name. -3: name taken. At every step the old or the new path leads to the file. */
    method Rename(path: Path, newName: Name) returns (r: int)
      requires Ready() && PathFits(path) && (AcceptableName(newName) ==> Spellable(newName))
      modifies this
      ensures RefsOk(geo, old(tree))
      ensures RenameRefused(geo, old(tree), old(lay), path, newName) ==>
        && r == (if RenameCode(geo, old(tree), Parent(path), Base(path), newName) != 0
                 then RenameCode(geo, old(tree), Parent(path), Base(path), newName) else -1)
        && Ready() && disk == old(disk) && tree == old(tree) && lay == old(lay) && trace == old(trace)
      ensures !RenameRefused(geo, old(tree), old(lay), path, newName) ==>
        || r == 0
        || (r == -1 && FullDuring(geo, old(trace), trace))
      ensures r == 0 ==>
        && Ready() && Resolve(geo, old(tree), path).Some?
        && var (d, i) := Resolve(geo, old(tree), path).value;
           RenameDone(geo, old(disk).heap, old(tree), disk.heap, tree, Parent(path), i,
                      EntAt(old(tree), d, i).(name := ReadBack(newName)))
      ensures Ready() || FullDuring(geo, old(trace), trace)
      ensures Resolve(geo, old(tree), path).Some? && WellFormed(newName) ==>
        var (d, i) := Resolve(geo, old(tree), path).value;
        var e0 := EntAt(old(tree), d, i);
        SafeThrough(geo, old(trace), trace, path, Parent(path) + [newName], e0, e0.(name := newName))
      ensures r == 0 ==>
        && Resolve(geo, old(tree), path).Some?
        && var (d, i) := Resolve(geo, old(tree), path).value;
           var e := EntAt(old(tree), d, i);
           Stored(lay, d, newName, e.isDir, e.first, e.size, e.contig)
    {
      hide Stored, Inv, RefsOk, LayoutOk, EntryOk, Scan, RefTo, PlacedAt, Editable, CursorAt, StreamOk, CursorOk,
        RenameDone, FullDuring, RenameSafe, Resolve, ResolveDir, Find, Spellable, WellFormed, AcceptableName, HasEnd,
        AllSlots;
      InvRefs(geo, disk, tree, lay);
      if !AcceptableName(newName) {
        return -2;
      }
      rcPath := [];
      NoCursorOk(geo, tree, Rc());
      SplitResolves(geo, tree, path);
      var dr := DirRefResolve(Parent(path));
      if dr == None {
        return -1;
      }
      var d := dr.value.first;
      var dup, _ := ScanDir(d, Some(newName));
      LookupCases(geo, disk, tree, lay, d, newName);
      if dup.Hit? {
        return -3;
      }
      var f, _ := ScanDir(d, Some(Base(path)));
      LookupCases(geo, disk, tree, lay, d, Base(path));
      if f.Miss? {
        return -1;
      }
      var sc, _ := ScanDir(d, None);
      ghost var ci := EodCursor(geo, disk, tree, lay, d);
      EndExact(geo, disk, tree, lay, d);
      if !sc.end.Eod? {
        return -1;
      }
      r := RenameEntry(dr.value, f.found, sc.end.loc, newName, path, Find(tree.dirs[d], Base(path)), ci);
    }

    /** The writes of a rename. */
    method RenameEntry(dr: DirRef, f: Found, eod: Loc, newName: Name, ghost path: Path, ghost i: nat, ghost ci: nat)
        returns (r: int)
      requires Ready() && rcPath == [] && Spellable(newName) && AcceptableName(newName)
      requires RefTo(geo, disk.heap, tree, lay, dr) && dr.first in tree.own && dr.first in lay
      requires CursorAt(tree.own[dr.first].chain, geo.Slots(), eod, ci, |AllSlots(lay[dr.first])|)
      requires EntryAt(tree, dr.first, i) && f.entry == EntAt(tree, dr.first, i)
      requires Editable(geo, disk.heap, tree.own[dr.first].chain, lay[dr.first], i, f.n, f.locs)
      requires RefsOk(geo, tree) && Resolve(geo, tree, path) == Some((dr.first, i))
      requires ResolveDir(geo, tree, Parent(path)) == Some(dr.first)
        && Find(tree.dirs[dr.first], newName) == |tree.dirs[dr.first]|
      modifies this`disk, this`trace, this`allocHint, this`tree, this`lay
      ensures r == 0 || (r == -1 && FullDuring(geo, old(trace), trace))
      ensures r == 0 ==> Ready()
      ensures r == 0 ==> RenameDone(geo, old(disk).heap, old(tree), disk.heap, tree, Parent(path), i,
        f.entry.(name := ReadBack(newName)))
      ensures WellFormed(newName) ==>
        SafeThrough(geo, old(trace), trace, path, Parent(path) + [newName], f.entry, f.entry.(name := newName))
      ensures r == 0 ==>
        Stored(lay, dr.first, newName, f.entry.isDir, f.entry.first, f.entry.size, f.entry.contig)
    {
      hide Inv, RefsOk, LayoutOk, EntryOk, RefTo, Editable, CursorAt, StreamOk, RenameDone, FullDuring, SafeThrough,
        NextAt, AppendDone, Appending, GrownFrom, Resolve, ResolveDir, Find, WellFormed, ShownThrough, SetOk, EntryOf,
        BuiltSet, Decode, PutAll, AllSlots, Renamed, RenamedItems, Rewritten, RetiredAll, EditTrace, Extends;
      ghost var t0, x0, d, tr0, items := tree, disk, dr.first, trace, lay[dr.first];
      OwnFirst(geo, disk, tree, lay);
      RenameFields(geo, tree, d, i);
      SpellableUnits(newName);
      var attr := if f.entry.isDir then ATTR_DIR else ATTR_ARCHIVE;
      var ents := BuildSet(newName, attr, f.entry.first, f.entry.size, if f.entry.contig then 3 else 1);
      BuiltSetDecodes(StoredUnits(newName), attr, f.entry.first, f.entry.size, if f.entry.contig then 3 else 1);
      ghost var e := f.entry.(name := ReadBack(newName));
      assert EntryOf(ents) == e;
      SetShaped(ents);
      AppendStart(geo, disk, tree, lay, dr, eod, ents, ci);
      var ok := AppendEntries(dr, eod, ents, AppendPos(tree, disk.heap, items, ents, 0, ci));
      SafeAppending(geo, tr0, trace, t0, path, Parent(path) + [newName], f.entry, f.entry.(name := newName));
      if !ok {
        return -1;
      }
      DoneOwn(geo, disk, tree, lay, d, t0, x0.heap, items, ents);
      ghost var tr1 := trace;
      RetireOld(f, d, i, t0, x0.heap, items, ents, e, path, newName);
      if WellFormed(newName) {
        AcceptableReadsBack(newName);
        SafeAll(geo, tr0, tr1, trace, path, Parent(path) + [newName], f.entry, f.entry.(name := newName));
      }
      NoCursorOk(geo, tree, Rc());
      return 0;
    }

    /** Retire the old set of a renamed entry. */
    method RetireOld(f: Found, ghost d: nat, ghost i: nat, ghost t0: Tree, ghost h0: Heap, ghost items: seq<Item>,
        ghost ents: seq<Slot>, ghost e: Entry, ghost path: Path, ghost newName: Name)
      requires AppendDone(geo, disk, tree, lay, d, t0, h0, items, ents) && d in t0.own && d in tree.own
      requires Editable(geo, h0, t0.own[d].chain, items, i, f.n, f.locs)
      requires EntryAt(t0, d, i) && f.entry == EntAt(t0, d, i) && Spellable(newName)
        && e == f.entry.(name := ReadBack(newName))
      requires SetOk(ents) && EntryOf(ents) == e && RefsOk(geo, t0) && ResolveDir(geo, t0, Parent(path)) == Some(d)
      requires StreamOk(geo, h0, t0, Ws(), wsData)
      modifies this`disk, this`trace, this`tree, this`lay
      ensures Valid() && StreamOk(geo, disk.heap, tree, Ws(), wsData) && Extends(old(trace), trace)
      ensures RenameDone(geo, h0, t0, disk.heap, tree, Parent(path), i, e)
      ensures e.name == newName && Find(t0.dirs[d], newName) == |t0.dirs[d]| ==>
        SafeThrough(geo, old(trace), trace, path, Parent(path) + [newName], f.entry, e)
      ensures d in lay && lay[d] != [] && lay[d][|lay[d]| - 1] == Live(ents)
    {
      hide Inv, RefsOk, EntryOk, Editable, StreamOk, RenameDone, SafeThrough, AppendDone, Appending, GrownFrom,
        Resolve, ResolveDir, Find, SetOk, EntryOf, Decode, PutAll, AllSlots, Renamed, RenamedItems, Rewritten,
        RetiredAll;
      ghost var x, t, tr := disk, tree, trace;
      ghost var all := items + [Live(ents)];
      RenameReady(geo, h0, disk, t0, tree, lay, d, i, items, ents, f.n, f.locs);
      RetireSet(f.n, f.locs, tree.own[d].chain, all, i);
      hide EditTrace;
      RenameInv(geo, h0, x, disk, t0, t, lay, d, i, items, ents, e);
      RenameDoneIntro(geo, h0, x, disk, t0, t, lay, d, i, items, ents, e, Parent(path), ItemStart(all, i),
        RetiredAll(items[i].ents));
      StreamRenamed(geo, h0, t0, x, disk, t, lay, d, i, items, ents, e, ItemStart(all, i), RetiredAll(items[i].ents),
        Ws(), wsData);
      RenamedLast(items, ents, i);
      lay := lay[d := RenamedItems(items, ents, i)];
      tree := Renamed(tree, d, i, e);
      if e.name == newName && Find(t0.dirs[d], newName) == |t0.dirs[d]| {
        SafeRetiring(geo, h0, x, disk, t0, t, old(lay), lay, d, i, items, ents, e, tr, trace, path, f.n, f.entry);
      }
    }

    // ---- Reading -------------------------------------------------------------------------

    /** Read a whole file, copying at most cap bytes; the result also tells the file's length, cut off
        at 32 bits. None: no such file. */
    method ReadFile(path: Path, cap: nat) returns (r: Option<(nat, seq<Byte>)>)
      requires Valid() && PathFits(path)
      ensures RefsOk(geo, tree)
      ensures r.Some? <==> FileAt(geo, tree, path).Some?
      ensures r.Some? ==>
        var e := FileAt(geo, tree, path).value;
        && Readable(disk.heap, tree, e) && r.value.0 == Min(e.size, TWO32 - 1)
        && |r.value.1| == Min(cap, r.value.0) && r.value.1 <= FileData(disk.heap, tree, e)
    {
      hide Inv, RefsOk, Walkable, Covers, EntryOk;
      InvRefs(geo, disk, tree, lay);
      var e := ResolvePath(path, false);
      if e == None {
        return None;
      }
      ghost var at := Resolve(geo, tree, path).value;
      FileChain(geo, disk, tree, lay, at.0, at.1);
      ghost var chain := ChainOf(tree, e.value);
      var total := Min(e.value.size, TWO32 - 1);
      var out := ReadChain(e.value.first, e.value.contig, total, cap, chain);
      DataPrefix(disk.heap, tree, e.value, Min(cap, total), out);
      return Some((total, out));
    }

    method ReadChain(first: nat, contig: bool, total: nat, cap: nat, ghost chain: seq<nat>) returns (out: seq<Byte>)
      requires geo.Valid() && Walkable(disk.fat, chain, contig) && |disk.fat| == |disk.heap|
      requires InHeap(disk.heap, chain) && Covers(disk.heap, chain, geo.Slots())
      requires first == if chain == [] then 0 else chain[0]
      requires total <= |ChainBytes(disk.heap, chain)| == |chain| * geo.ClusBytes()
      ensures out == ChainBytes(disk.heap, chain)[..Min(cap, total)]
    {
      hide Covers;
      ghost var all := ChainBytes(disk.heap, chain);
      out := [];
      var copied, cluster, guard := 0, first, 0;
      while 2 <= cluster < EOC && copied < total && guard < MAX_CLUSTERS
        invariant 0 <= guard <= |chain|
        invariant guard < |chain| ==> cluster == chain[guard]
        invariant copied == Min(total, guard * geo.ClusBytes())
        invariant out == all[..Min(cap, copied)]
      {
        RowsLeft(guard, |chain|, geo.ClusBytes());
        SectorBytes(geo, disk.heap, chain, guard, 0, geo.ClusBytes());
        out, copied := ReadCluster(cluster, out, copied, total, cap, all);
        NextRow(guard, geo.ClusBytes());
        NextCluster(disk.fat, chain, contig, guard);
        cluster := if contig then cluster + 1 else disk.fat[cluster];
        guard := guard + 1;
      }
      if guard < |chain| {
        assert copied >= total;
      }
    }

    /** One cluster of a whole-file read. */
    method ReadCluster(cluster: nat, out0: seq<Byte>, copied0: nat, total: nat, cap: nat, ghost all: seq<Byte>)
      returns (out: seq<Byte>, copied: nat)
      requires geo.Valid() && cluster < |disk.heap| && |disk.heap[cluster]| == geo.ClusBytes()
      requires copied0 + geo.ClusBytes() <= |all| && total <= |all| && copied0 < total
      requires all[copied0..copied0 + geo.ClusBytes()] == disk.heap[cluster]
      requires out0 == all[..Min(cap, copied0)]
      ensures copied == Min(total, copied0 + geo.ClusBytes()) && out == all[..Min(cap, copied)]
    {
      out, copied := out0, copied0;
      var s := 0;
      while s < geo.spc && copied < total
        invariant 0 <= s <= geo.spc
        invariant copied == Min(total, copied0 + 512 * s)
        invariant out == all[..Min(cap, copied)]
      {
        SectorIn(all, disk.heap[cluster], copied0, s, geo.spc);
        var sec := disk.heap[cluster][512 * s..512 * s + 512];
        var want := Min(total - copied, SECTOR);
        PieceAdded(all, copied, cap, want, sec);
        if copied < cap {
          var chunk := if copied + want > cap then cap - copied else want;
          out := out + sec[..chunk];
        }
        copied := copied + want;
        s := s + 1;
      }
    }

    /** Move the cursor on to the cluster that holds an offset; for an offset in the last cluster below
        4 GiB the search never stops before the end of the file. */
    method Seek(offset: nat, ghost chain: seq<nat>, ghost idx0: nat) returns (ghost idx: nat)
      requires geo.Valid() && Walkable(disk.fat, chain, rcContig)
      requires Stands(chain, rcContig, rcCluster, idx0) && rcPos == idx0 * geo.ClusBytes() <= offset
      requires offset < |chain| * geo.ClusBytes() && offset < TWO32
      modifies this`rcCluster, this`rcPos
      ensures offset < TWO32 - geo.ClusBytes() ==>
        && idx < |chain| && Stands(chain, rcContig, rcCluster, idx) && rcCluster == chain[idx] && 2 <= rcCluster < EOC
        && rcPos == idx * geo.ClusBytes() <= offset < rcPos + geo.ClusBytes()
      ensures offset >= TWO32 - geo.ClusBytes() ==> rcCluster >= EOC && rcPos == StrandedPos(geo, chain, rcContig)
    {
      hide Walkable, Stands, SeekAt, StrandedPos;
      idx := idx0;
      ghost var q, n, b := idx0, |chain|, geo.ClusBytes();
      SeekStart(b, n, offset, rcPos, idx0);
      StandsHere(disk.fat, chain, rcContig, rcCluster, idx0);
      while 2 <= rcCluster < EOC && (rcPos + geo.ClusBytes()) % TWO32 <= offset
        invariant Stands(chain, rcContig, rcCluster, idx) && (rcContig ==> rcCluster <= EOC)
        invariant SeekAt(b, n, offset, rcPos, idx, q)
        decreases if rcContig then EOC - rcCluster else |chain| - idx
      {
        ghost var q' := SeekStep(geo, n, offset, rcPos, idx, q);
        NotPast(chain, rcContig, rcCluster, idx);
        StandsNext(disk.fat, chain, rcContig, rcCluster, idx);
        rcCluster := if rcContig then rcCluster + 1 else disk.fat[rcCluster];
        rcPos := (rcPos + geo.ClusBytes()) % TWO32;
        idx, q := idx + 1, q';
      }
      SeekEnd(geo, n, offset, rcPos, idx, q);
      if offset < TWO32 - b {
        StandsHere(disk.fat, chain, rcContig, rcCluster, idx);
      } else {
        RanPast(geo, disk.fat, chain, rcContig, rcCluster, idx, n, offset, rcPos, q);
      }
    }

    /** Copy bytes from the cursor's cluster on, sector piece by sector piece. */
    method CopyOut(offset: nat, len: nat, ghost chain: seq<nat>, ghost idx0: nat)
        returns (out: seq<Byte>, ghost idx: nat)
      requires geo.Valid() && Walkable(disk.fat, chain, rcContig) && |disk.fat| == |disk.heap|
      requires InHeap(disk.heap, chain) && Covers(disk.heap, chain, geo.Slots())
      requires offset + len <= |ChainBytes(disk.heap, chain)| == |chain| * geo.ClusBytes() && offset + len < TWO32
      requires Stands(chain, rcContig, rcCluster, idx0)
      requires rcPos == idx0 * geo.ClusBytes() <= offset < rcPos + geo.ClusBytes() && len > 0
      modifies this`rcCluster, this`rcPos
      ensures out == ChainBytes(disk.heap, chain)[offset..offset + len]
      ensures Stands(chain, rcContig, rcCluster, idx) && rcPos == idx * geo.ClusBytes() && idx <= |chain|
    {
      hide Walkable, Stands, Covers, ChainBytes;
      ghost var all, b := ChainBytes(disk.heap, chain), geo.ClusBytes();
      var copied := 0;
      out, idx := [], idx0;
      PastEnd(idx, |chain|, b, offset);
      while copied < len && 2 <= rcCluster < EOC
        invariant 0 <= copied <= len && idx0 <= idx <= |chain| && Stands(chain, rcContig, rcCluster, idx)
        invariant rcPos == idx * b <= offset + copied < rcPos + b
        invariant out == all[offset..offset + copied]
        decreases len - copied
      {
        PastEnd(idx, |chain|, b, offset + copied);
        StandsHere(disk.fat, chain, rcContig, rcCluster, idx);
        var inOff := offset + copied - rcPos;
        var piece := SectorPiece(rcCluster, inOff, len - copied, chain, idx);
        MoreTaken(all, offset, copied, piece);
        out := out + piece;
        copied := copied + |piece|;
        if inOff + |piece| >= geo.ClusBytes() {
          StandsNext(disk.fat, chain, rcContig, rcCluster, idx);
          NextStart(idx, b, rcPos, offset + copied);
          rcCluster := if rcContig then rcCluster + 1 else disk.fat[rcCluster];
          rcPos := (rcPos + geo.ClusBytes()) % TWO32;
          idx := idx + 1;
        }
      }
      if copied < len {
        PastEnd(idx, |chain|, b, offset + copied);
        StandsHere(disk.fat, chain, rcContig, rcCluster, idx);
      }
    }

    /** The rest of one sector, or as much of it as is wanted. */
    method SectorPiece(cluster: nat, inOff: nat, wanted: nat, ghost chain: seq<nat>, ghost idx: nat)
        returns (piece: seq<Byte>)
      requires geo.Valid() && inOff < geo.ClusBytes() && wanted > 0
      requires InHeap(disk.heap, chain) && Covers(disk.heap, chain, geo.Slots()) && idx < |chain|
        && cluster == chain[idx]
      ensures 0 < |piece| <= wanted && inOff + |piece| <= geo.ClusBytes()
      ensures
        var p := idx * geo.ClusBytes() + inOff;
        p + |piece| <= |ChainBytes(disk.heap, chain)| && piece == ChainBytes(disk.heap, chain)[p..p + |piece|]
    {
      hide ChainBytes;
      var s, off := inOff / SECTOR, inOff % SECTOR;
      SectorBytes(geo, disk.heap, chain, idx, SECTOR * s, SECTOR);
      var sec := disk.heap[cluster][SECTOR * s..SECTOR * s + SECTOR];
      var chunk := Min(SECTOR - off, wanted);
      SectorBytes(geo, disk.heap, chain, idx, inOff, chunk);
      piece := sec[off..off + chunk];
      assert piece == disk.heap[cluster][inOff..inOff + chunk];
    }

    /** Read from an offset of a file, going on from the cached cursor when it is for this path and not
        past the offset. None is the error return. A read that fails inside the file leaves the cursor
        stranded behind it, and later reads of the same path from there on fail too. */
    method ReadAt(path: Path, offset: nat, len: nat) returns (r: Option<seq<Byte>>)
      requires Ready() && PathFits(path) && offset < TWO32 && len < TWO32
      modifies this`rcPath, this`rcFirst, this`rcSize, this`rcContig, this`rcCluster, this`rcPos
      ensures Ready() && RefsOk(geo, tree)
      ensures FileAt(geo, tree, path) == None ==> r == None && Rc() == old(Rc())
      ensures FileAt(geo, tree, path).Some? ==>
        var e := FileAt(geo, tree, path).value;
        && Readable(disk.heap, tree, e) && rcPath == path
        && r == ReadResult(geo, disk.heap, tree, e, offset, len, old(Stuck(path, offset)))
        && (r == None ==> Stranded(geo, tree, Rc(), e))
    {
      hide Inv, RefsOk, Walkable, Covers, EntryOk, InHeap, ChainBytes, CursorOn, CursorOk, Readable, ReadResult,
        ChainOf, Stranded;
      InvRefs(geo, disk, tree, lay);
      var ok := PlaceCursor(path, offset);
      if !ok {
        return None;
      }
      ghost var e := FileAt(geo, tree, path).value;
      r := ReadOn(path, offset, len, e);
    }

    /** A read of this path at this offset would go on from a cursor behind the end of a file. */
    predicate Stuck(path: Path, offset: nat)
      reads this`rcPath, this`rcPos, this`rcCluster
    {
      path != [] && rcPath == path && offset >= rcPos && rcCluster >= EOC
    }

    /** Read from the cursor on. */
    method ReadOn(ghost path: Path, offset: nat, len: nat, ghost e: Entry) returns (r: Option<seq<Byte>>)
      requires Valid() && offset < TWO32 && len < TWO32 && rcPath == path && rcPos <= offset
      requires RefsOk(geo, tree) && FileAt(geo, tree, path) == Some(e) && path != [] && CursorOk(geo, tree, Rc())
      modifies this`rcCluster, this`rcPos
      ensures Readable(disk.heap, tree, e) && CursorOk(geo, tree, Rc())
      ensures r == ReadResult(geo, disk.heap, tree, e, offset, len, old(rcCluster) >= EOC)
      ensures r == None ==> Stranded(geo, tree, Rc(), e)
    {
      hide Inv, RefsOk, Walkable, Covers, EntryOk, InHeap, ChainBytes, CursorOn, Stands, CursorOk, Readable, ChainOf,
        Stranded, ReadResult;
      ghost var at := Resolve(geo, tree, path).value;
      FileChain(geo, disk, tree, lay, at.0, at.1);
      CursorHeld(geo, tree, Rc());
      ghost var idx := CursorStands(geo, tree, Rc(), e);
      ghost var stuck := rcCluster >= EOC;
      var total := Min(rcSize, TWO32 - 1);
      if offset >= total {
        NothingRead(geo, disk.heap, tree, e, offset, len, stuck);
        return Some([]);
      }
      var n := Min(len, total - offset);
      if n == 0 {
        NothingRead(geo, disk.heap, tree, e, offset, len, stuck);
        return Some([]);
      }
      ghost var chain := ChainOf(tree, e);
      ReadBytes(geo, disk.heap, tree, e, offset, len, n, stuck);
      ChainNonEmpty(geo, chain, e.size);
      if rcCluster >= EOC {
        OnlyStranded(geo, disk.fat, tree, Rc(), e, idx, offset);
        return None;
      }
      StrandedStuck(geo, tree, Rc(), e);
      idx := Seek(offset, chain, idx);
      if rcCluster < 2 || rcCluster >= EOC {
        StrandedIntro(geo, tree, Rc(), e);
        CursorIntro(geo, tree, Rc(), e);
        return None;
      }
      var out;
      out, idx := CopyOut(offset, n, chain, idx);
      StandsCursor(geo, tree, Rc(), e, idx);
      CursorIntro(geo, tree, Rc(), e);
      return Some(out);
    }

    /** Keep the cursor when it is for this path and not past the offset; otherwise look the file up
        and start over. */
    method PlaceCursor(path: Path, offset: nat) returns (ok: bool)
      requires Valid() && RefsOk(geo, tree) && CursorOk(geo, tree, Rc())
      modifies this`rcPath, this`rcFirst, this`rcSize, this`rcContig, this`rcCluster, this`rcPos
      ensures RefsOk(geo, tree)
      ensures !ok ==> FileAt(geo, tree, path) == None && Rc() == old(Rc())
      ensures ok ==> FileAt(geo, tree, path).Some? && rcPath == path != [] && rcPos <= offset
      ensures ok ==> (rcCluster >= EOC <==> old(Stuck(path, offset)))
      ensures CursorOk(geo, tree, Rc())
    {
      hide Inv, RefsOk, EntryOk, CursorOn, CursorOk, Walkable, Covers, Readable, ChainBytes;
      var same := rcPath != [] && rcPath == path;
      if !same || offset < rcPos {
        var e := ResolvePath(path, false);
        if e == None {
          return false;
        }
        ghost var at := Resolve(geo, tree, path).value;
        FileChain(geo, disk, tree, lay, at.0, at.1);
        rcPath, rcFirst, rcSize, rcContig := path, e.value.first, e.value.size, e.value.contig;
        rcCluster, rcPos := e.value.first, 0;
        CursorFresh(geo, tree, Rc(), e.value);
        CursorIntro(geo, tree, Rc(), e.value);
      } else {
        CursorHeld(geo, tree, Rc());
      }
      return true;
    }
  }

  lemma {:induction false} NotPast(chain: seq<nat>, contig: bool, cluster: nat, idx: nat)
    requires Stands(chain, contig, cluster, idx) && cluster < EOC
    ensures idx < |chain| || contig
    ensures !contig ==> idx <= |chain|
  {
  }

  lemma {:induction false} StandsHere(fat: seq<nat>, chain: seq<nat>, contig: bool, cluster: nat, idx: nat)
    requires Walkable(fat, chain, contig) && Stands(chain, contig, cluster, idx) && idx < |chain|
    ensures cluster == chain[idx] && 2 <= cluster < EOC
  {
    if contig {
      RunFrom(fat, chain, idx);
    }
  }

  /** Inside a file only a stranded cursor has no cluster to read from. */
  lemma {:induction false} OnlyStranded(geo: Geo, fat: seq<nat>, t: Tree, rc: Cursor, e: Entry, idx: nat, offset: nat)
    requires rc.cluster >= EOC && rc.pos <= offset < e.size <= |ChainOf(t, e)| * geo.ClusBytes()
    requires Walkable(fat, ChainOf(t, e), e.contig) && ChainOf(t, e) != []
    requires Stranded(geo, t, rc, e)
      || (rc.pos == idx * geo.ClusBytes() && idx <= |ChainOf(t, e)| && Stands(ChainOf(t, e), e.contig, rc.cluster, idx))
    ensures Stranded(geo, t, rc, e)
  {
    hide Stranded, ChainOf;
    if !Stranded(geo, t, rc, e) {
      PastEnd(idx, |ChainOf(t, e)|, geo.ClusBytes(), offset);
      StandsHere(fat, ChainOf(t, e), e.contig, rc.cluster, idx);
    }
  }

  lemma {:induction false} StrandedStuck(geo: Geo, t: Tree, rc: Cursor, e: Entry)
    ensures Stranded(geo, t, rc, e) ==> rc.cluster >= EOC
  {
  }

  lemma {:induction false} StrandedIntro(geo: Geo, t: Tree, rc: Cursor, e: Entry)
    requires rc.first == e.first && rc.size == e.size && rc.contig == e.contig
    requires ChainOf(t, e) != [] && e.size > TWO32 - geo.ClusBytes() && rc.cluster >= EOC
      && rc.pos == StrandedPos(geo, ChainOf(t, e), e.contig)
    ensures Stranded(geo, t, rc, e)
  {
  }

  /** The search for an offset: below the last cluster boundary under 4 GiB it has not passed it. */
  predicate SeekAt(b: nat, n: nat, offset: nat, pos: nat, idx: nat, q: nat) {
    && pos == q * b < TWO32 && pos == idx * b % TWO32 && offset < n * b && offset < TWO32
    && (offset < TWO32 - b ==> q == idx && pos <= offset)
  }

  lemma {:induction false} SeekStart(b: nat, n: nat, offset: nat, pos: nat, idx: nat)
    requires pos == idx * b <= offset < n * b && offset < TWO32
    ensures SeekAt(b, n, offset, pos, idx, idx) && idx < n
  {
    PastEnd(idx, n, b, offset);
  }

  lemma {:induction false} SeekStep(geo: Geo, n: nat, offset: nat, pos: nat, idx: nat, q: nat) returns (q': nat)
    requires geo.Valid() && SeekAt(geo.ClusBytes(), n, offset, pos, idx, q)
    requires (pos + geo.ClusBytes()) % TWO32 <= offset
    ensures SeekAt(geo.ClusBytes(), n, offset, (pos + geo.ClusBytes()) % TWO32, idx + 1, q')
  {
    var b := geo.ClusBytes();
    NextOffset(idx, b);
    if offset < TWO32 - b {
      PastEnd(idx, n, b, offset);
      NextRow(idx, b);
      q' := idx + 1;
    } else {
      q' := WrapStep(geo, q);
    }
  }

  lemma {:induction false} SeekEnd(geo: Geo, n: nat, offset: nat, pos: nat, idx: nat, q: nat)
    requires geo.Valid() && SeekAt(geo.ClusBytes(), n, offset, pos, idx, q)
    ensures offset < TWO32 - geo.ClusBytes() ==>
      idx < n && pos == idx * geo.ClusBytes() <= offset
    ensures offset < TWO32 - geo.ClusBytes() && (pos + geo.ClusBytes()) % TWO32 > offset
      ==> offset < pos + geo.ClusBytes()
    ensures offset >= TWO32 - geo.ClusBytes() ==> (pos + geo.ClusBytes()) % TWO32 <= offset
  {
    if offset < TWO32 - geo.ClusBytes() {
      PastEnd(idx, n, geo.ClusBytes(), offset);
    } else {
      var q' := WrapStep(geo, q);
    }
  }

  lemma {:induction false} NextOffset(idx: nat, b: nat)
    ensures (idx * b % TWO32 + b) % TWO32 == (idx + 1) * b % TWO32
  {
    AddMod(idx * b, b, TWO32);
    NextRow(idx, b);
  }

  /** A walk that only the end of the cluster numbers or of the chain has stopped. */
  lemma {:induction false} RanPast(geo: Geo, fat: seq<nat>, chain: seq<nat>, contig: bool, cluster: nat, idx: nat,
      n: nat, offset: nat, pos: nat, q: nat)
    requires Walkable(fat, chain, contig) && Stands(chain, contig, cluster, idx) && (contig ==> cluster <= EOC)
    requires (cluster < 2 || cluster >= EOC) && SeekAt(geo.ClusBytes(), n, offset, pos, idx, q)
    ensures cluster >= EOC && pos == StrandedPos(geo, chain, contig)
  {
  }

  lemma {:induction false} PastEnd(idx: nat, n: nat, b: nat, offset: nat)
    requires idx * b <= offset < n * b
    ensures idx < n
  {
    if idx >= n {
      MulAtLeastMul(n, idx, b);
    }
  }

  /** Before the last row there is room for one more. */
  lemma {:induction false} RowsLeft(i: nat, n: nat, b: nat)
    requires i <= n
    ensures i * b <= n * b && (i < n ==> i * b + b <= n * b)
  {
    MulAtLeastMul(i, n, b);
    if i < n {
      MulAtLeastMul(i + 1, n, b);
      assert (i + 1) * b == i * b + b;
    }
  }

  lemma {:induction false} NextCluster(fat: seq<nat>, chain: seq<nat>, contig: bool, i: nat)
    requires Walkable(fat, chain, contig) && i < |chain|
    ensures 2 <= chain[i] < |fat|
    ensures i + 1 < |chain| ==> chain[i + 1] == if contig then chain[i] + 1 else fat[chain[i]]
    ensures i + 1 == |chain| && !contig ==> fat[chain[i]] >= EOC
  {
  }

  lemma {:induction false} NextRow(i: nat, b: nat)
    ensures (i + 1) * b == i * b + b
  {
  }

  lemma {:induction false} DroppedParts(t: Tree, k: nat)
    requires k in t.own && t.loose == {k}
    ensures LooseDropped(t, k).loose == {} && Sans(t, k) == LooseDropped(t, k)
  {
  }

  lemma {:induction false} LooseRange(geo: Geo, x: Disk, t: Tree, k: nat)
    requires SpaceOk(geo, x, t.own, t.at) && k in t.own
    ensures k >= 2
  {
  }

  lemma {:induction false} EditableHeap(geo: Geo, h: Heap, h': Heap, chain: seq<nat>, items: seq<Item>, i: nat, n: nat,
      locs: seq<Loc>)
    requires Editable(geo, h, chain, items, i, n, locs) && h' == h
    ensures Editable(geo, h', chain, items, i, n, locs)
  {
  }

  /** An entry names an owner that can be released, as far as its recorded length reaches. */
  lemma {:induction false} FreeFacts(geo: Geo, x: Disk, t: Tree, lay: Layout, d: nat, i: nat)
    requires Inv(geo, x, t, lay) && EntryAt(t, d, i)
    ensures geo.Valid() && SpaceOk(geo, x, t.own, t.at) && geo.ClusBytes() > 0 && RefsOk(geo, t)
    ensures
      var e := EntAt(t, d, i);
      && (e.first >= 2 ==> e.first in t.own && t.own[e.first].contig == e.contig)
      && (e.first < 2 ==> e.first !in t.own)
      && (e.first >= 2 && e.contig ==> FreeCount(geo, e.size) <= |t.own[e.first].chain|)
  {
    hide SpaceOk, EntriesOk, LayoutOk, FreeCount, Left;
    EntryFacts(geo, t, d, i);
    var e := EntAt(t, d, i);
    OwnerRange(geo, x, t.own, t.at, e.first);
    LeftNothing(geo, t, d, i);
  }

  lemma {:induction false} OwnerRange(geo: Geo, x: Disk, own: Owners, at: Places, k: nat)
    requires SpaceOk(geo, x, own, at)
    ensures k in own ==> k >= 2 && own[k].chain != []
  {
  }

  lemma {:induction false} EntryFacts(geo: Geo, t: Tree, d: nat, i: nat)
    requires RefsOk(geo, t) && EntryAt(t, d, i)
    ensures EntryOk(geo, t, d, i)
    ensures 0 !in t.own
    ensures EntAt(t, d, i).isDir ==> !EntAt(t, d, i).contig
  {
  }

  lemma {:induction false} GeoFacts(geo: Geo, x: Disk, t: Tree, lay: Layout)
    requires Inv(geo, x, t, lay)
    ensures geo.Valid()
  {
  }

  lemma {:induction false} ReadStep(geo: Geo, d: Disk, chain: seq<nat>, items: seq<Item>, i: nat, n: nat,
      locs: seq<Loc>, k: nat)
    requires Editable(geo, d.heap, chain, items, i, n, locs) && k < n
    ensures k < |locs| && i < |items| && items[i].Live? && k < |items[i].ents|
    ensures
      var l := locs[k];
      && l.clus < |d.heap| && 32 * l.idx + 32 <= |d.heap[l.clus]|
      && SlotAt(d.heap[l.clus], l.idx) == items[i].ents[k]
  {
    PlacedSlot(geo, d.heap, chain, items, i, n, locs, k);
    hide DirHolds, PlacedAt;
  }

  function FirstOf(s: seq<Entry>, n: nat): seq<Entry> { if |s| <= n then s else s[..n] }

  lemma {:induction false} NamesNonEmpty(geo: Geo, t: Tree, k: nat)
    requires RefsOk(geo, t) && k in t.dirs
    ensures forall i :: 0 <= i < |t.dirs[k]| && t.dirs[k][i].Some? ==> t.dirs[k][i].value.name != []
  {
    forall i | 0 <= i < |t.dirs[k]| && t.dirs[k][i].Some?
      ensures t.dirs[k][i].value.name != []
    {
      assert EntryAt(t, k, i) && EntryOk(geo, t, k, i);
    }
  }

  lemma {:induction false} RunNothing(st: ScanState)
    ensures Run(st, []) == Walk([], Open(st))
  {
  }

  /** One entry of a listing walk, after `out` has been listed. */
  lemma {:induction false} ListStep(out: seq<Entry>, st: ScanState, cells: seq<Cell>)
    requires cells != []
    ensures
      var all := out + Shown(Run(st, cells).events);
      if cells[0].slot[0] == 0 then all == out
      else
        var (s, f) := Step(st, cells[0]);
        var out' := if f.Some? && f.value.entry.name != [] then out + [f.value.entry] else out;
        all == out' + Shown(Run(s, cells[1..]).events)
  {
    hide Step;
    if cells[0].slot[0] != 0 {
      var (s, f) := Step(st, cells[0]);
      var rest := Shown(Run(s, cells[1..]).events);
      if f.Some? && f.value.entry.name != [] {
        assert Shown(Run(st, cells).events) == [f.value.entry] + rest;
        assert out + ([f.value.entry] + rest) == out + [f.value.entry] + rest;
      }
    }
  }

  lemma {:induction false} DirOfEntry(geo: Geo, t: Tree, path: Path, e: Entry)
    requires RefsOk(geo, t) && e.isDir
    requires path == [] ==> e.first == geo.root
    requires path != [] ==>
      var at := Resolve(geo, t, path); at.Some? && e == EntAt(t, at.value.0, at.value.1)
    ensures ResolveDir(geo, t, path) == Some(e.first) && e.first in t.dirs
  {
    hide RefsOk, EntryOk;
  }

  /** A path whose prefix does not resolve to a directory, or not at all, does not resolve. */
  lemma {:induction false} DeadPath(geo: Geo, t: Tree, path: Path, n: nat)
    requires RefsOk(geo, t) && 0 < n <= |path|
    requires Resolve(geo, t, path[..n]) == None
    ensures Resolve(geo, t, path) == None
    decreases |path|
  {
    hide RefsOk, EntryOk;
    if n < |path| {
      var up := path[..|path| - 1];
      assert up[..n] == path[..n];
      DeadPath(geo, t, up, n);
    } else {
      assert path[..n] == path;
    }
  }

  lemma {:induction false} ScanNothing(st: ScanState, want: Option<Name>)
    ensures Scan(st, [], want) == Miss(Open(st))
  {
  }

  lemma {:induction false} NextLink(fat: seq<nat>, chain: seq<nat>, i: nat)
    requires PathOf(fat, chain) && i < |chain|
    ensures fat[chain[i]] == if i + 1 < |chain| then chain[i + 1] else fat[chain[|chain| - 1]]
  {
  }

  lemma {:induction false} DiskFacts(geo: Geo, d: Disk, own: Owners, at: Places)
    requires SpaceOk(geo, d, own, at)
    ensures DiskOk(geo, d)
  {
  }

  /** The run of n clusters from first. */
  function Consecutive(first: nat, n: nat): (r: seq<nat>)
    ensures |r| == n && forall i :: 0 <= i < n ==> r[i] == first + i
  {
    seq(n, i requires 0 <= i < n => first + i)
  }

  /** The device after cluster c is taken: its bit set, its FAT entry an end of chain. */
  function Allocated(d: Disk, c: nat): Disk
    requires c < |d.fat| && c < |d.bits|
  {
    d.(fat := d.fat[c := EOC_WRITE], bits := d.bits[c := true])
  }

  lemma {:induction false} FreedHeap(d: Disk, chain: seq<nat>)
    ensures Freed(d, chain).heap == d.heap
  {
  }

  lemma {:induction false} FreedStep(d: Disk, chain: seq<nat>, i: nat)
    requires i < |chain| && Distinct(chain) && |d.fat| == |d.bits|
    requires forall j :: 0 <= j < |chain| ==> chain[j] < |d.fat|
    ensures
      var f := Freed(d, chain[..i]);
      && f.fat[chain[i]] == d.fat[chain[i]]
      && Freed(d, chain[..i + 1]) == f.(fat := f.fat[chain[i] := 0], bits := f.bits[chain[i] := false])
  {
    var f := Freed(d, chain[..i]);
    var g := Freed(d, chain[..i + 1]);
    assert chain[..i + 1] == chain[..i] + [chain[i]];
    assert chain[i] !in chain[..i];
    assert g.fat == f.fat[chain[i] := 0];
    assert g.bits == f.bits[chain[i] := false];
  }

  /** Changing 32 bytes of a sector in place changes the same 32 bytes of the cluster. */
  lemma {:induction false} SectorSplice(b: seq<Byte>, spc: nat, s: nat, e: nat, slot: Slot)
    requires |b| == 512 * spc && s < spc && e < 16
    ensures
      Splice(b, SECTOR * s, Splice(b[SECTOR * s..SECTOR * s + SECTOR], 32 * e, slot))
      == Splice(b, 32 * (16 * s + e), slot)
  {
  }
}
