/** The cached read cursor: a place in one file that the next sequential read starts from. */
module ExfatCursor {
  import opened Arith
  import opened Bytes
  import opened ExfatNames
  import opened ExfatEntrySet
  import opened ExfatScan
  import opened ExfatSpace
  import opened ExfatHeap
  import opened ExfatTree
  import opened ExfatLayout
  import opened ExfatOps
  import opened ExfatStream
  import opened ExfatContents

  /** The volume's cursor fields. An empty path means there is no cursor. */
  datatype Cursor = Cursor(path: Path, first: nat, size: nat, contig: bool, cluster: nat, pos: nat)

  /** The cursor stands at the start of cluster number idx of a file, or behind its last one. */
  predicate CursorOn(geo: Geo, t: Tree, rc: Cursor, e: Entry, idx: nat) {
    var chain := ChainOf(t, e);
    && rc.first == e.first && rc.size == e.size && rc.contig == e.contig
    && idx <= |chain| && rc.pos == idx * geo.ClusBytes()
    && if chain == [] then rc.cluster == 0 else Stands(chain, e.contig, rc.cluster, idx)
  }

  /** Where a search that runs past the file leaves the cursor's 32-bit offset: behind the chain, or, for
      a contiguous file, at the first cluster number that reads as an end of chain. */
  function StrandedPos(geo: Geo, chain: seq<nat>, contig: bool): nat {
    var steps: nat := if contig && chain != [] && chain[0] <= EOC then EOC - chain[0] else |chain|;
    steps * geo.ClusBytes() % TWO32
  }

  /** The cursor has run past a file that reaches into the last cluster below 4 GiB. */
  predicate Stranded(geo: Geo, t: Tree, rc: Cursor, e: Entry) {
    var chain := ChainOf(t, e);
    && rc.first == e.first && rc.size == e.size && rc.contig == e.contig
    && chain != [] && e.size > TWO32 - geo.ClusBytes()
    && rc.cluster >= EOC && rc.pos == StrandedPos(geo, chain, e.contig)
  }

  ghost predicate CursorOk(geo: Geo, t: Tree, rc: Cursor) {
    rc.path != [] ==>
      RefsOk(geo, t) && FileAt(geo, t, rc.path).Some?
      && var e := FileAt(geo, t, rc.path).value;
         Stranded(geo, t, rc, e) || exists idx :: CursorOn(geo, t, rc, e, idx)
  }

  /** A cursor survives whatever leaves the directories and the file's clusters alone. */
  lemma {:induction false} CursorKept(geo: Geo, t: Tree, t': Tree, rc: Cursor)
    requires CursorOk(geo, t, rc) && RefsOk(geo, t) && RefsOk(geo, t') && t'.dirs == t.dirs
    requires forall k <- t.own :: k !in t.dirs && k !in t.loose ==> k in t'.own && t'.own[k] == t.own[k]
    ensures CursorOk(geo, t', rc)
  {
    if rc.path != [] {
      hide RefsOk, Resolve, ChainOf;
      FileSame(geo, t, t', rc.path);
      var e := FileAt(geo, t, rc.path).value;
      if !Stranded(geo, t, rc, e) {
        var idx :| CursorOn(geo, t, rc, e, idx);
        assert CursorOn(geo, t', rc, e, idx);
      }
    }
  }

  lemma {:induction false} FileSame(geo: Geo, t: Tree, t': Tree, path: Path)
    requires RefsOk(geo, t) && RefsOk(geo, t') && t'.dirs == t.dirs
    requires forall k <- t.own :: k !in t.dirs && k !in t.loose ==> k in t'.own && t'.own[k] == t.own[k]
    ensures FileAt(geo, t', path) == FileAt(geo, t, path)
    ensures FileAt(geo, t, path).Some? ==> ChainOf(t', FileAt(geo, t, path).value) == ChainOf(t,
      FileAt(geo, t, path).value)
  {
    hide RefsOk, Resolve, EntryOk;
    ResolveSame(geo, t, t', path);
    var at := Resolve(geo, t, path);
    if FileAt(geo, t, path).Some? {
      FileNamed(geo, t, at.value.0, at.value.1);
      FileOwned(geo, t', at.value.0, at.value.1);
    }
  }

  /** The cursor outlives stream writes. */
  lemma {:induction false} CursorFrame(geo: Geo, x0: Disk, t0: Tree, lay0: Layout, f0: nat, x: Disk, t: Tree,
      lay: Layout, f: nat, rc: Cursor)
    requires Inv(geo, x0, t0, lay0) && Inv(geo, x, t, lay) && CursorOk(geo, t0, rc)
    requires StreamFrame(t0, f0, x0.heap, t, f, x.heap) && t0.loose <= {f0} && t.loose <= {f}
    ensures CursorOk(geo, t, rc)
  {
    hide Inv, CursorOk, StreamFrame, RefsOk;
    InvRefs(geo, x0, t0, lay0);
    InvRefs(geo, x, t, lay);
    FrameOwn(t0, f0, x0.heap, t, f, x.heap);
    CursorKept(geo, t0, t, rc);
  }

  // ---- Walking a file's clusters --------------------------------------------------------

  /** The cluster a reader goes to after cluster number idx. */
  ghost predicate Walkable(fat: seq<nat>, chain: seq<nat>, contig: bool) {
    && |chain| <= MAX_CLUSTERS && |fat| <= MAX_CLUSTERS
    && (forall i :: 0 <= i < |chain| ==> 2 <= chain[i] < |fat|)
    && (forall i :: 0 <= i < |chain| - 1 ==>
          chain[i + 1] == if contig then chain[i] + 1 else fat[chain[i]])
    && (chain != [] && !contig ==> fat[chain[|chain| - 1]] >= EOC)
  }

  /** What a reader of a file can rely on. */
  lemma {:induction false} FileChain(geo: Geo, x: Disk, t: Tree, lay: Layout, d: nat, i: nat)
    requires Inv(geo, x, t, lay) && EntryAt(t, d, i) && !EntAt(t, d, i).isDir
    ensures geo.Valid() && |x.fat| == |x.heap| == geo.Total()
    ensures
      var e := EntAt(t, d, i);
      var chain := ChainOf(t, e);
      && Walkable(x.fat, chain, e.contig) && InHeap(x.heap, chain) && Covers(x.heap, chain, geo.Slots())
      && (chain == [] ==> e.first == 0) && (chain != [] ==> e.first == chain[0])
      && Readable(x.heap, t, e) && e.size <= |ChainBytes(x.heap, chain)| == |chain| * geo.ClusBytes()
  {
    hide Inv, SpaceOk, RefsOk, LayoutOk, Walkable;
    InvParts(geo, x, t, lay);
    FileNamed(geo, t, d, i);
    var e := EntAt(t, d, i);
    if e.first in t.own {
      ChainFacts(geo, x, t.own, t.at, e.first);
      ChainBytesSize(x.heap, t.own[e.first].chain, geo.Slots());
      WalkableIntro(x.fat, t.own[e.first].chain, e.contig);
    } else {
      WalkableNone(x.fat, e.contig);
    }
  }

  lemma {:induction false} WalkableNone(fat: seq<nat>, contig: bool)
    requires |fat| <= MAX_CLUSTERS
    ensures Walkable(fat, [], contig)
  {
  }

  lemma {:induction false} WalkableIntro(fat: seq<nat>, chain: seq<nat>, contig: bool)
    requires chain != [] && |chain| <= |fat| <= MAX_CLUSTERS
    requires forall i :: 0 <= i < |chain| ==> 2 <= chain[i] < |fat|
    requires !contig ==> PathOf(fat, chain) && fat[chain[|chain| - 1]] >= EOC
    requires contig ==> forall i :: 0 <= i < |chain| ==> chain[i] == chain[0] + i
    ensures Walkable(fat, chain, contig)
  {
  }

  /** A piece of a sector is a piece of the file. */
  lemma {:induction false} SectorBytes(geo: Geo, heap: Heap, chain: seq<nat>, ci: nat, o: nat, n: nat)
    requires InHeap(heap, chain) && Covers(heap, chain, geo.Slots()) && ci < |chain| && o + n <= geo.ClusBytes()
    ensures |heap[chain[ci]]| == geo.ClusBytes()
    ensures ci * geo.ClusBytes() + o + n <= |ChainBytes(heap, chain)|
    ensures
      var p := ci * geo.ClusBytes() + o;
      ChainBytes(heap, chain)[p..p + n] == heap[chain[ci]][o..o + n]
  {
    ChainBytesAt(heap, chain, geo.Slots(), ci);
    var all, b := ChainBytes(heap, chain), geo.ClusBytes();
    var p := ci * b + o;
    assert all[ci * b..(ci + 1) * b][o..o + n] == all[p..p + n];
  }

  /** The cursor's cluster after idx steps from the first one. A contiguous walk does not notice the end. */
  predicate Stands(chain: seq<nat>, contig: bool, cluster: nat, idx: nat) {
    && chain != []
    && if contig then cluster == chain[0] + idx
       else idx <= |chain| && if idx < |chain| then cluster == chain[idx] else cluster >= EOC
  }

  lemma {:induction false} StandsNext(fat: seq<nat>, chain: seq<nat>, contig: bool, cluster: nat, idx: nat)
    requires Walkable(fat, chain, contig) && Stands(chain, contig, cluster, idx) && (contig || idx < |chain|)
    ensures !contig ==> 2 <= cluster < |fat| <= MAX_CLUSTERS
    ensures Stands(chain, contig, if contig then cluster + 1 else fat[cluster], idx + 1)
  {
  }

  /** The cursor's offset after one more cluster, in 32-bit arithmetic: it never passes the last
      cluster boundary below 4 GiB, and starts over there. */
  lemma {:induction false} WrapStep(geo: Geo, q: nat) returns (q': nat)
    requires geo.Valid() && q * geo.ClusBytes() < TWO32
    ensures (q * geo.ClusBytes() + geo.ClusBytes()) % TWO32 == q' * geo.ClusBytes() <= TWO32 - geo.ClusBytes()
  {
    var b := geo.ClusBytes();
    var m := TWO32 / b;
    assert m * b == TWO32;
    if q + 1 < m {
      q' := q + 1;
      assert q' * b == q * b + b;
      MulAtLeastMul(q' + 1, m, b);
      assert (q' + 1) * b == q' * b + b;
    } else {
      q' := 0;
      MulAtLeastMul(m, q + 1, b);
      assert (q + 1) * b == q * b + b;
      if q + 1 > m {
        MulAtLeastMul(m, q, b);
      }
    }
  }

  /** A cached place is a place to walk on from, unless the cursor is stranded. */
  lemma {:induction false} CursorStands(geo: Geo, t: Tree, rc: Cursor, e: Entry) returns (idx: nat)
    requires Stranded(geo, t, rc, e) || exists i :: CursorOn(geo, t, rc, e, i)
    ensures rc.first == e.first && rc.size == e.size && rc.contig == e.contig
    ensures Stranded(geo, t, rc, e)
      || (rc.pos == idx * geo.ClusBytes() && idx <= |ChainOf(t, e)|
        && (ChainOf(t, e) != [] ==> Stands(ChainOf(t, e), e.contig, rc.cluster, idx)))
  {
    idx := 0;
    if !Stranded(geo, t, rc, e) {
      idx :| CursorOn(geo, t, rc, e, idx);
    }
  }

  lemma {:induction false} StandsCursor(geo: Geo, t: Tree, rc: Cursor, e: Entry, idx: nat)
    requires rc.first == e.first && rc.size == e.size && rc.contig == e.contig && idx <= |ChainOf(t, e)|
    requires Stands(ChainOf(t, e), e.contig, rc.cluster, idx) && rc.pos == idx * geo.ClusBytes()
    ensures exists i :: CursorOn(geo, t, rc, e, i)
  {
    assert CursorOn(geo, t, rc, e, idx);
  }

  lemma {:induction false} CursorIntro(geo: Geo, t: Tree, rc: Cursor, e: Entry)
    requires RefsOk(geo, t) && (rc.path != [] ==> FileAt(geo, t, rc.path) == Some(e))
    requires Stranded(geo, t, rc, e) || exists i :: CursorOn(geo, t, rc, e, i)
    ensures CursorOk(geo, t, rc)
  {
  }

  lemma {:induction false} CursorFresh(geo: Geo, t: Tree, rc: Cursor, e: Entry)
    requires rc.first == e.first && rc.size == e.size && rc.contig == e.contig && rc.cluster == e.first && rc.pos == 0
    requires e.first == if ChainOf(t, e) == [] then 0 else ChainOf(t, e)[0]
    ensures exists i :: CursorOn(geo, t, rc, e, i)
  {
    assert CursorOn(geo, t, rc, e, 0);
  }

  /** What a read at an offset returns for a file: a slice of its bytes, cut at its length and at
      4 GiB - 1. Inside the file the read fails in the last cluster below 4 GiB, where the cursor's 32-bit
      offset wraps, and when it goes on from a cursor that is stuck behind the file. */
  ghost function ReadResult(geo: Geo, heap: Heap, t: Tree, e: Entry, offset: nat, len: nat,
      stuck: bool): Option<seq<Byte>>
    requires Readable(heap, t, e)
  {
    var total := Min(e.size, TWO32 - 1);
    if offset >= total || len == 0 then Some([])
    else if offset < TWO32 - geo.ClusBytes() && !stuck then Some(FileData(heap, t, e)[offset..Min(offset + len, total)])
    else None
  }

  lemma {:induction false} ReadBytes(geo: Geo, heap: Heap, t: Tree, e: Entry, offset: nat, len: nat, n: nat,
      stuck: bool)
    requires Readable(heap, t, e) && offset < Min(e.size, TWO32 - 1) && len > 0
    requires n == Min(len, Min(e.size, TWO32 - 1) - offset)
    ensures offset >= TWO32 - geo.ClusBytes() || stuck ==> ReadResult(geo, heap, t, e, offset, len, stuck) == None
    ensures offset < TWO32 - geo.ClusBytes() && !stuck ==>
      ReadResult(geo, heap, t, e, offset, len, stuck) == Some(ChainBytes(heap, ChainOf(t, e))[offset..offset + n])
  {
    hide Min;
    Minimum(len, Min(e.size, TWO32 - 1) - offset);
    Minimum(e.size, TWO32 - 1);
    Minimum(offset + len, Min(e.size, TWO32 - 1));
    TakeSlice(ChainBytes(heap, ChainOf(t, e)), e.size, offset, n);
  }

  lemma {:induction false} NothingRead(geo: Geo, heap: Heap, t: Tree, e: Entry, offset: nat, len: nat, stuck: bool)
    requires Readable(heap, t, e) && (offset >= Min(e.size, TWO32 - 1) || len == 0)
    ensures ReadResult(geo, heap, t, e, offset, len, stuck) == Some([])
  {
  }

  lemma {:induction false} Minimum(a: nat, b: nat)
    ensures Min(a, b) == if a < b then a else b
  {
  }

  lemma {:induction false} TakeSlice(s: seq<Byte>, m: nat, a: nat, n: nat)
    requires a + n <= m <= |s|
    ensures s[..m][a..a + n] == s[a..a + n]
  {
  }

  lemma {:induction false} ChainNonEmpty(geo: Geo, chain: seq<nat>, size: nat)
    requires 0 < size <= |chain| * geo.ClusBytes()
    ensures chain != []
  {
  }

  lemma {:induction false} RunFrom(fat: seq<nat>, chain: seq<nat>, i: nat)
    requires Walkable(fat, chain, true) && i < |chain|
    ensures chain[i] == chain[0] + i
  {
    if i > 0 {
      RunFrom(fat, chain, i - 1);
    }
  }

  lemma {:induction false} NoCursorOk(geo: Geo, t: Tree, rc: Cursor)
    requires rc.path == []
    ensures CursorOk(geo, t, rc)
  {
  }

  lemma {:induction false} CursorHeld(geo: Geo, t: Tree, rc: Cursor)
    requires CursorOk(geo, t, rc) && rc.path != []
    ensures RefsOk(geo, t) && FileAt(geo, t, rc.path).Some?
    ensures
      var e := FileAt(geo, t, rc.path).value;
      Stranded(geo, t, rc, e) || exists i :: CursorOn(geo, t, rc, e, i)
  {
  }
}
