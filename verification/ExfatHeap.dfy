/** What chains of heap clusters hold: directory entries for directories, bytes for files. */
module ExfatHeap {
  import opened Arith
  import opened Bytes
  import opened ExfatNames
  import opened ExfatEntrySet
  import opened ExfatScan
  import opened ExfatSpace

  type Heap = seq<seq<Byte>>

  function SlotAt(b: seq<Byte>, j: nat): Slot
    requires 32 * j + 32 <= |b|
  {
    b[32 * j..32 * j + 32]
  }

  /** The heap with one directory entry of one cluster rewritten. */
  function WithSlot(heap: Heap, l: Loc, s: Slot): (h: Heap)
    requires l.clus < |heap| && 32 * l.idx + 32 <= |heap[l.clus]|
    ensures |h| == |heap|
  {
    heap[l.clus := Splice(heap[l.clus], 32 * l.idx, s)]
  }

  function ClusterCells(c: nat, b: seq<Byte>): (cells: seq<Cell>)
    ensures |cells| == |b| / 32
  {
    seq(|b| / 32, j requires 0 <= j < |b| / 32 => Cell(Loc(c, j), SlotAt(b, j)))
  }

  ghost predicate InHeap(heap: Heap, chain: seq<nat>) {
    forall i :: 0 <= i < |chain| ==> chain[i] < |heap|
  }

  /** Every chain cluster exists and has k directory entries. */
  ghost predicate Covers(heap: Heap, chain: seq<nat>, k: nat) {
    forall i :: 0 <= i < |chain| ==> chain[i] < |heap| && |heap[chain[i]]| == 32 * k
  }

  ghost predicate Distinct(chain: seq<nat>) {
    forall i, j :: 0 <= i < j < |chain| ==> chain[i] != chain[j]
  }

  /** All entries of a directory, in walking order. */
  ghost function DirCells(heap: Heap, chain: seq<nat>): seq<Cell>
    requires InHeap(heap, chain)
  {
    if chain == [] then [] else ClusterCells(chain[0], heap[chain[0]]) + DirCells(heap, chain[1..])
  }

  lemma {:induction false} NoCells(heap: Heap, chain: seq<nat>)
    requires chain == []
    ensures InHeap(heap, chain) && DirCells(heap, chain) == []
  {
  }

  lemma {:induction false} DirCellsFrom(heap: Heap, chain: seq<nat>, g: nat)
    requires InHeap(heap, chain) && g < |chain|
    ensures InHeap(heap, chain[g..]) && InHeap(heap, chain[g + 1..])
    ensures DirCells(heap, chain[g..]) == ClusterCells(chain[g], heap[chain[g]]) + DirCells(heap, chain[g + 1..])
  {
    hide ClusterCells;
    assert chain[g..][1..] == chain[g + 1..];
  }

  lemma {:induction false} DirCellsSize(heap: Heap, chain: seq<nat>, k: nat)
    requires Covers(heap, chain, k)
    ensures |DirCells(heap, chain)| == |chain| * k
  {
    if chain != [] {
      hide ClusterCells;
      DirCellsSize(heap, chain[1..], k);
      ClusterSize(chain[0], heap[chain[0]], k);
      assert |chain| * k == (|chain| - 1) * k + k;
    }
  }

  lemma {:induction false} ClusterSize(c: nat, b: seq<Byte>, k: nat)
    requires |b| == 32 * k
    ensures |ClusterCells(c, b)| == k
  {
  }

  lemma {:induction false} DirCellsConcat(heap: Heap, a: seq<nat>, b: seq<nat>)
    requires InHeap(heap, a) && InHeap(heap, b)
    ensures InHeap(heap, a + b)
    ensures DirCells(heap, a + b) == DirCells(heap, a) + DirCells(heap, b)
  {
    hide ClusterCells;
    if a == [] {
      assert a + b == b;
    } else {
      assert (a + b)[1..] == a[1..] + b;
      DirCellsConcat(heap, a[1..], b);
      var first := ClusterCells(a[0], heap[a[0]]);
      assert DirCells(heap, a + b) == first + DirCells(heap, a[1..] + b);
      assert DirCells(heap, a) == first + DirCells(heap, a[1..]);
    }
  }

  /** Position p of a directory is entry p % k of its cluster number p / k. */
  lemma {:induction false} DirCellAt(heap: Heap, chain: seq<nat>, k: nat, ci: nat, j: nat)
    requires Covers(heap, chain, k) && ci < |chain| && j < k
    ensures ci * k + j < |DirCells(heap, chain)|
    ensures DirCells(heap, chain)[ci * k + j] == Cell(Loc(chain[ci], j), SlotAt(heap[chain[ci]], j))
  {
    DirCellsSize(heap, chain, k);
    var cells := DirCells(heap, chain);
    assert |ClusterCells(chain[0], heap[chain[0]])| == k;
    if ci > 0 {
      DirCellAt(heap, chain[1..], k, ci - 1, j);
      assert ci * k == (ci - 1) * k + k;
      assert cells[ci * k + j] == DirCells(heap, chain[1..])[(ci - 1) * k + j];
    }
  }

  /** Clusters that do not change show the same entries. */
  lemma {:induction false} DirCellsFrame(heap: Heap, heap': Heap, chain: seq<nat>)
    requires forall i :: 0 <= i < |chain| ==>
      chain[i] < |heap| && chain[i] < |heap'| && heap'[chain[i]] == heap[chain[i]]
    ensures DirCells(heap', chain) == DirCells(heap, chain)
  {
    if chain != [] {
      DirCellsFrame(heap, heap', chain[1..]);
    }
  }

  lemma {:induction false} SpliceSlots(b: seq<Byte>, k: nat, i: nat, s: Slot, j: nat)
    requires |b| == 32 * k && i < k && j < k
    ensures SlotAt(Splice(b, 32 * i, s), j) == if j == i then s else SlotAt(b, j)
  {
    SpliceAt(b, 32 * i, s);
  }

  lemma {:induction false} ClusterCellsWrite(c: nat, b: seq<Byte>, k: nat, i: nat, s: Slot)
    requires |b| == 32 * k && i < k
    ensures ClusterCells(c, Splice(b, 32 * i, s)) == ClusterCells(c, b)[i := Cell(Loc(c, i), s)]
  {
    var l, r := ClusterCells(c, Splice(b, 32 * i, s)), ClusterCells(c, b)[i := Cell(Loc(c, i), s)];
    forall j | 0 <= j < k
      ensures l[j] == r[j]
    {
      SpliceSlots(b, k, i, s, j);
    }
  }

  /** Rewriting one entry rewrites one position of the directory. */
  lemma {:induction false} DirCellsWrite(heap: Heap, chain: seq<nat>, k: nat, ci: nat, j: nat, s: Slot)
    requires Covers(heap, chain, k) && Distinct(chain) && ci < |chain| && j < k
    ensures
      var h := WithSlot(heap, Loc(chain[ci], j), s);
      && Covers(h, chain, k)
      && ci * k + j < |DirCells(heap, chain)|
      && DirCells(h, chain) == DirCells(heap, chain)[ci * k + j := Cell(Loc(chain[ci], j), s)]
  {
    hide ClusterCells, WithSlot, DirCells;
    var h := WithSlot(heap, Loc(chain[ci], j), s);
    WithSlotParts(heap, Loc(chain[ci], j), s);
    DirCellsFirst(heap, chain);
    DirCellsFirst(h, chain);
    DirCellsSize(heap, chain, k);
    ClusterSize(chain[0], heap[chain[0]], k);
    var first := ClusterCells(chain[0], heap[chain[0]]);
    if ci == 0 {
      ClusterCellsWrite(chain[0], heap[chain[0]], k, j, s);
      DirCellsFrame(heap, h, chain[1..]);
    } else {
      assert ci * k == (ci - 1) * k + k;
      DirCellsWrite(heap, chain[1..], k, ci - 1, j, s);
      DirCellAt(heap, chain, k, ci, j);
      UpdateTail(first, DirCells(heap, chain[1..]), (ci - 1) * k + j, Cell(Loc(chain[ci], j), s));
    }
  }

  lemma {:induction false} DirCellsFirst(heap: Heap, chain: seq<nat>)
    requires InHeap(heap, chain) && chain != []
    ensures DirCells(heap, chain) == ClusterCells(chain[0], heap[chain[0]]) + DirCells(heap, chain[1..])
  {
  }

  lemma {:induction false} WithSlotParts(heap: Heap, l: Loc, s: Slot)
    requires l.clus < |heap| && 32 * l.idx + 32 <= |heap[l.clus]|
    ensures WithSlot(heap, l, s)[l.clus] == Splice(heap[l.clus], 32 * l.idx, s)
    ensures forall i :: 0 <= i < |heap| && i != l.clus ==> WithSlot(heap, l, s)[i] == heap[i]
  {
  }

  lemma {:induction false} UpdateTail(a: seq<Cell>, b: seq<Cell>, i: nat, c: Cell)
    requires i < |b|
    ensures a + b[i := c] == (a + b)[|a| + i := c]
  {
  }

  // ---- File contents -------------------------------------------------------

  /** The bytes of a chain of clusters. */
  ghost function ChainBytes(heap: Heap, chain: seq<nat>): seq<Byte>
    requires InHeap(heap, chain)
  {
    if chain == [] then [] else heap[chain[0]] + ChainBytes(heap, chain[1..])
  }

  lemma {:induction false} ChainBytesSize(heap: Heap, chain: seq<nat>, k: nat)
    requires Covers(heap, chain, k)
    ensures |ChainBytes(heap, chain)| == |chain| * (32 * k)
  {
    if chain != [] {
      ChainBytesSize(heap, chain[1..], k);
    }
  }

  lemma {:induction false} ChainBytesConcat(heap: Heap, a: seq<nat>, b: seq<nat>)
    requires InHeap(heap, a) && InHeap(heap, b)
    ensures InHeap(heap, a + b)
    ensures ChainBytes(heap, a + b) == ChainBytes(heap, a) + ChainBytes(heap, b)
  {
    if a == [] {
      assert a + b == b;
    } else {
      assert (a + b)[1..] == a[1..] + b;
      ChainBytesConcat(heap, a[1..], b);
    }
  }

  lemma {:induction false} ChainBytesFrame(heap: Heap, heap': Heap, chain: seq<nat>)
    requires forall i :: 0 <= i < |chain| ==>
      chain[i] < |heap| && chain[i] < |heap'| && heap'[chain[i]] == heap[chain[i]]
    ensures ChainBytes(heap', chain) == ChainBytes(heap, chain)
  {
    if chain != [] {
      ChainBytesFrame(heap, heap', chain[1..]);
    }
  }

  /** One cluster's share of the bytes. */
  lemma {:induction false} ChainBytesAt(heap: Heap, chain: seq<nat>, k: nat, ci: nat)
    requires InHeap(heap, chain) && Covers(heap, chain, k) && ci < |chain|
    ensures (ci + 1) * (32 * k) <= |ChainBytes(heap, chain)| && ci * (32 * k) + 32 * k == (ci + 1) * (32 * k)
    ensures ChainBytes(heap, chain)[ci * (32 * k)..(ci + 1) * (32 * k)] == heap[chain[ci]]
  {
    ChainBytesSize(heap, chain, k);
    var b := 32 * k;
    MulAtLeastMul(ci + 1, |chain|, b);
    assert (ci + 1) * b == ci * b + b;
    if ci > 0 {
      ChainBytesAt(heap, chain[1..], k, ci - 1);
      assert ci * b == (ci - 1) * b + b;
      var rest := ChainBytes(heap, chain[1..]);
      assert ChainBytes(heap, chain)[ci * b..(ci + 1) * b] == rest[(ci - 1) * b..ci * b];
    }
  }

  // ---- Directory contents --------------------------------------------------

  /** A directory's clusters hold its items, then an end marker or the end of the chain. What
      follows the end marker is arbitrary. */
  ghost predicate DirHolds(heap: Heap, chain: seq<nat>, items: seq<Item>)
    requires InHeap(heap, chain)
  {
    var cells, n := DirCells(heap, chain), |AllSlots(items)|;
    && ItemsOk(items)
    && n <= |cells|
    && SlotsOfCells(cells[..n]) == AllSlots(items)
    && (n < |cells| ==> cells[n].slot[0] == 0)
  }

  /** The result of looking a name up in a directory that holds the given items. */
  ghost predicate FoundItem(items: seq<Item>, cells: seq<Cell>, want: seq<Byte>, r: ScanResult)
    requires ItemsOk(items)
  {
    var i := Lookup(items, want);
    if i == |items| then r.Miss?
    else
      && ItemStart(items, i) + |items[i].ents| <= |cells|
      && r == Hit(Found(EntryOf(items[i].ents), |items[i].ents|,
                        LocsOf(cells)[ItemStart(items, i)..ItemStart(items, i) + |items[i].ents|]))
  }

  /** Scanning for a name finds the first live set with that name and the places of its entries. */
  lemma {:induction false} DirLookup(heap: Heap, chain: seq<nat>, items: seq<Item>, want: seq<Byte>)
    requires InHeap(heap, chain)
    requires DirHolds(heap, chain, items)
    ensures FoundItem(items, DirCells(heap, chain), want, Scan(Idle, DirCells(heap, chain), Some(want)))
  {
    hide Run, Founds, Lookup, EntryOf, DirCells, Scan, ItemOk;
    var cells, n := DirCells(heap, chain), |AllSlots(items)|;
    var i := Lookup(items, want);
    ScanHolding(items, cells, n, want);
    if i < |items| {
      FirstWantedLookup(items, LocsOf(cells[..n]), want);
      ItemSpan(items, i);
      var a, b := ItemStart(items, i), ItemStart(items, i) + |items[i].ents|;
      assert LocsOf(cells[..n])[a..b] == LocsOf(cells)[a..b];
    } else {
      FirstWantedLookup(items, LocsOf(cells[..n]), want);
    }
  }

  lemma {:induction false} ScanHolding(items: seq<Item>, cells: seq<Cell>, n: nat, want: seq<Byte>)
    requires ItemsOk(items) && n == |AllSlots(items)| <= |cells| && SlotsOfCells(cells[..n]) == AllSlots(items)
    requires n < |cells| ==> cells[n].slot[0] == 0
    ensures
      var f := FirstWanted(Founds(items, LocsOf(cells[..n])), Some(want));
      var r := Scan(Idle, cells, Some(want));
      if f.Some? then r == Hit(f.value) else r.Miss?
  {
    hide Run, Founds, EntryOf, Scan, ItemOk;
    assert cells == cells[..n] + cells[n..];
    RunItems(items, cells[..n]);
    RunConcat(Idle, cells[..n], cells[n..]);
    RunTail(cells[n..]);
    ScanRun(Idle, cells, Some(want));
    assert Founds(items, LocsOf(cells[..n])) + [] == Founds(items, LocsOf(cells[..n]));
  }

  lemma {:induction false} RunTail(cells: seq<Cell>)
    requires cells == [] || cells[0].slot[0] == 0
    ensures Run(Idle, cells) == Walk([], if cells == [] then Open(Idle) else Eod(cells[0].loc))
  {
  }

  /** A full walk reports the live sets in order and stops at the end marker, if there is one. */
  lemma {:induction false} DirWalk(heap: Heap, chain: seq<nat>, items: seq<Item>)
    requires InHeap(heap, chain)
    requires DirHolds(heap, chain, items)
    ensures
      var cells, n := DirCells(heap, chain), |AllSlots(items)|;
      && Shown(Run(Idle, cells).events) == Listing(items)
      && Scan(Idle, cells, None) == Miss(if n < |cells| then Eod(cells[n].loc) else Open(Idle))
  {
    hide Run, Founds, EntryOf, Shown, Listing;
    var cells, n := DirCells(heap, chain), |AllSlots(items)|;
    assert cells == cells[..n] + cells[n..];
    RunItems(items, cells[..n]);
    RunConcat(Idle, cells[..n], cells[n..]);
    RunTail(cells[n..]);
    assert Founds(items, LocsOf(cells[..n])) + [] == Founds(items, LocsOf(cells[..n]));
    ScanRun(Idle, cells, None);
    NothingWanted(Run(Idle, cells).events);
    ShownFounds(items, LocsOf(cells[..n]));
  }

  lemma {:induction false} NothingWanted(events: seq<Found>)
    ensures FirstWanted(events, None) == None
  {
    if events != [] {
      NothingWanted(events[1..]);
    }
  }
}
