/** The open write stream: how its clusters join and leave the volume, and what they hold. */
module ExfatStream {
  import opened Arith
  import opened Bytes
  import opened ExfatNames
  import opened ExfatEntrySet
  import opened ExfatScan
  import opened ExfatSpace
  import opened ExfatHeap
  import opened ExfatTree
  import opened ExfatLayout
  import opened ExfatEdit
  import opened ExfatGrow
  import opened ExfatAppend
  import opened ExfatOps

  /** Size of the accumulation buffer; volumes with larger clusters cannot be streamed to. */
  const STREAM_BUFFER: nat := 131072

  /** The volume's stream fields: active flag, first and last cluster, 32-bit length, and the bytes
      waiting for a full cluster. */
  datatype Stream = Stream(active: bool, first: nat, prev: nat, len: nat, buf: seq<Byte>)

  /** Bytes laid out in the stream's clusters, which are the only loose ones. */
  ghost predicate Laid(heap: Heap, t: Tree, first: nat, prev: nat, bytes: seq<Byte>) {
    if first == 0 then prev == 0 && t.loose == {} && bytes == []
    else
      && t.loose == {first} && first in t.own && first !in t.dirs && !t.own[first].contig
      && t.own[first].chain != [] && prev == t.own[first].chain[|t.own[first].chain| - 1]
      && InHeap(heap, t.own[first].chain) && ChainBytes(heap, t.own[first].chain) == bytes
  }

  /** The stream's clusters followed by the waiting bytes are the data appended so far. */
  ghost predicate Streaming(geo: Geo, heap: Heap, t: Tree, s: Stream, data: seq<Byte>) {
    && geo.ClusBytes() <= STREAM_BUFFER && s.len == |data| % TWO32
    && |s.buf| <= geo.ClusBytes() && |s.buf| <= |data| && s.buf == data[|data| - |s.buf|..]
    && Laid(heap, t, s.first, s.prev, data[..|data| - |s.buf|])
  }

  /** Nothing is loose but the clusters of the stream. */
  ghost predicate StreamOk(geo: Geo, heap: Heap, t: Tree, s: Stream, data: seq<Byte>) {
    if s.active then Streaming(geo, heap, t, s, data) && |s.buf| < geo.ClusBytes() else t.loose == {}
  }

  /** The tree without the stream that starts at k. */
  function Sans(t: Tree, k: nat): Tree {
    if k in t.own && k in t.loose then LooseDropped(t, k) else t
  }

  ghost predicate HeapKept(at: Places, h0: Heap, h: Heap) {
    |h| == |h0| && forall c <- at :: c < |h0| ==> h[c] == h0[c]
  }

  /** Only the stream has changed. */
  ghost predicate StreamFrame(t0: Tree, first0: nat, h0: Heap, t: Tree, first: nat, h: Heap) {
    Sans(t, first) == Sans(t0, first0) && HeapKept(Sans(t0, first0).at, h0, h)
  }

  /** Directories do not notice changes in other clusters. */
  lemma {:induction false} LayoutFrame(x: Heap, y: Heap, t: Tree, t': Tree, lay: Layout)
    requires LayoutOk(x, t, lay) && t'.dirs == t.dirs && |y| == |x|
    requires forall k <- t.dirs :: k in t'.own && k in t.own && t'.own[k].chain == t.own[k].chain
    requires forall k, i :: k in t.dirs && k in t.own && 0 <= i < |t.own[k].chain| && t.own[k].chain[i] < |x| ==>
      y[t.own[k].chain[i]] == x[t.own[k].chain[i]]
    ensures LayoutOk(y, t', lay)
  {
    forall k | k in t'.dirs
      ensures DirOk(y, t'.own[k].chain, lay[k], t'.dirs[k])
    {
      assert DirOk(x, t.own[k].chain, lay[k], t.dirs[k]);
      DirOkFrame(x, y, t.own[k].chain, lay[k], t.dirs[k]);
    }
  }

  /** The bytes of cluster c replaced. */
  function WithCluster(x: Disk, c: nat, b: seq<Byte>): Disk
    requires c < |x.heap|
  {
    x.(heap := x.heap[c := b])
  }

  lemma {:induction false} WithClusterSpace(geo: Geo, x: Disk, own: Owners, at: Places, c: nat, b: seq<Byte>)
    requires SpaceOk(geo, x, own, at) && c < |x.heap| && |b| == geo.ClusBytes()
    ensures SpaceOk(geo, WithCluster(x, c, b), own, at)
  {
  }

  lemma {:induction false} FreeOutside(geo: Geo, x: Disk, own: Owners, at: Places, c: nat)
    requires SpaceOk(geo, x, own, at) && 2 <= c < geo.Total() && !x.bits[c]
    ensures c < |x.fat| && c < |x.heap| && c !in own && c !in at
    ensures forall k, i :: k in own && 0 <= i < |own[k].chain| ==> own[k].chain[i] != c
  {
    forall k, i | k in own && 0 <= i < |own[k].chain|
      ensures own[k].chain[i] in at
    {
    }
  }

  function NewLoose(x: Disk, c: nat, b: seq<Byte>): Disk
    requires c < |x.fat| && c < |x.bits| && c < |x.heap|
  {
    WithCluster(x.(fat := x.fat[c := EOC_WRITE], bits := x.bits[c := true]), c, b)
  }

  lemma {:induction false} InvParts(geo: Geo, x: Disk, t: Tree, lay: Layout)
    requires Inv(geo, x, t, lay)
    ensures geo.Valid() && SpaceOk(geo, x, t.own, t.at) && RefsOk(geo, t) && LayoutOk(x.heap, t, lay)
    ensures |x.fat| == |x.bits| == |x.heap| == geo.Total() && geo.Total() <= MAX_CLUSTERS
    ensures forall k <- t.dirs :: k in t.own
    ensures 0 !in t.own
  {
    assert forall k <- t.dirs :: k in t.own;
    hide EntriesOk, OwnersOk, Placed, Charted, LayoutOk;
  }

  lemma {:induction false} InvIntro(geo: Geo, x: Disk, t: Tree, lay: Layout)
    requires geo.Valid() && SpaceOk(geo, x, t.own, t.at) && RefsOk(geo, t) && LayoutOk(x.heap, t, lay)
    ensures Inv(geo, x, t, lay)
  {
    hide SpaceOk, RefsOk, LayoutOk;
  }

  /** A stream's first cluster is taken and filled. */
  lemma {:induction false} StreamStart(geo: Geo, x: Disk, t: Tree, lay: Layout, c: nat, b: seq<Byte>)
    requires Inv(geo, x, t, lay) && 2 <= c < geo.Total() && c < |x.bits| && !x.bits[c] && |b| == geo.ClusBytes()
    ensures c < |x.fat| && c < |x.heap| && c !in t.own && c !in t.dirs
    ensures forall k, i :: k in t.own && 0 <= i < |t.own[k].chain| ==> t.own[k].chain[i] != c
    ensures Inv(geo, NewLoose(x, c, b), LooseAdded(t, c), lay)
  {
    hide Inv, SpaceOk, RefsOk, LayoutOk, LooseAdded;
    InvParts(geo, x, t, lay);
    FreeOutside(geo, x, t.own, t.at, c);
    LooseAddKeepsRefs(geo, t, c);
    StartSpace(geo, x, t, c, b);
    LooseAddedParts(t, c);
    var y := NewLoose(x, c, b);
    LayoutFrame(x.heap, y.heap, t, LooseAdded(t, c), lay);
    InvIntro(geo, y, LooseAdded(t, c), lay);
  }

  lemma {:induction false} LooseAddedParts(t: Tree, c: nat)
    requires c !in t.own && forall k <- t.dirs :: k in t.own
    ensures LooseAdded(t, c).dirs == t.dirs && c !in t.dirs
    ensures forall k <- t.own :: k in LooseAdded(t, c).own && LooseAdded(t, c).own[k] == t.own[k]
    ensures c in LooseAdded(t, c).own && LooseAdded(t, c).own[c] == Owner([c], false)
      && LooseAdded(t, c).loose == t.loose + {c}
  {
  }

  lemma {:induction false} StartSpace(geo: Geo, x: Disk, t: Tree, c: nat, b: seq<Byte>)
    requires SpaceOk(geo, x, t.own, t.at) && 2 <= c < geo.Total() && !x.bits[c] && |b| == geo.ClusBytes()
    requires c < |x.fat| && c < |x.heap| && c < |x.bits|
    ensures SpaceOk(geo, NewLoose(x, c, b), LooseAdded(t, c).own, LooseAdded(t, c).at)
  {
    hide SpaceOk;
    SpaceNew(geo, x, t.own, t.at, c);
    WithClusterSpace(geo, x.(fat := x.fat[c := EOC_WRITE], bits := x.bits[c := true]),
                     LooseAdded(t, c).own, LooseAdded(t, c).at, c, b);
  }

  /** A further cluster is taken, linked behind the stream's last one and filled. */
  lemma {:induction false} StreamMore(geo: Geo, x: Disk, t: Tree, lay: Layout, k: nat, c: nat, b: seq<Byte>)
    requires Inv(geo, x, t, lay) && 2 <= c < geo.Total() && c < |x.bits| && !x.bits[c] && |b| == geo.ClusBytes()
    requires k in t.loose && k in t.own && !t.own[k].contig && k !in t.dirs
    ensures c < |x.fat| && c < |x.heap| && t.own[k].chain != [] && t.own[k].chain[|t.own[k].chain| - 1] < |x.fat|
    ensures forall k, i :: k in t.own && 0 <= i < |t.own[k].chain| ==> t.own[k].chain[i] != c
    ensures
      Inv(geo, WithCluster(LinkedIn(x, t.own[k].chain[|t.own[k].chain| - 1], c), c, b), LooseExtended(t, k, c), lay)
  {
    hide Inv, SpaceOk, RefsOk, LayoutOk;
    InvParts(geo, x, t, lay);
    FreeOutside(geo, x, t.own, t.at, c);
    LooseExtendKeepsRefs(geo, t, k, c);
    SpaceExtend(geo, x, t.own, t.at, k, c);
    var t' := LooseExtended(t, k, c);
    var mid := LinkedIn(x, t.own[k].chain[|t.own[k].chain| - 1], c);
    WithClusterSpace(geo, mid, t'.own, t'.at, c, b);
    LayoutFrame(x.heap, WithCluster(mid, c, b).heap, t, t', lay);
    InvIntro(geo, WithCluster(mid, c, b), t', lay);
  }

  /** An abandoned stream gives all its clusters back. */
  lemma {:induction false} StreamDrop(geo: Geo, x: Disk, t: Tree, lay: Layout, k: nat)
    requires Inv(geo, x, t, lay) && k in t.loose && k in t.own && k !in t.dirs
    ensures Inv(geo, Freed(x, t.own[k].chain), LooseDropped(t, k), lay)
  {
    hide Inv, SpaceOk, RefsOk, LayoutOk;
    InvParts(geo, x, t, lay);
    LooseDropKeepsRefs(geo, t, k);
    SpaceFree(geo, x, t.own, t.at, k);
    var y := Freed(x, t.own[k].chain);
    LayoutFrame(x.heap, y.heap, t, LooseDropped(t, k), lay);
    InvIntro(geo, y, LooseDropped(t, k), lay);
  }

  lemma {:induction false} ChainBytesMore(x: Heap, y: Heap, chain: seq<nat>, c: nat)
    requires InHeap(x, chain) && |y| == |x| && c < |y|
    requires forall i :: 0 <= i < |chain| ==> y[chain[i]] == x[chain[i]]
    ensures InHeap(y, chain + [c])
    ensures ChainBytes(y, chain + [c]) == ChainBytes(x, chain) + y[c]
  {
    ChainBytesFrame(x, y, chain);
    ChainBytesConcat(y, chain, [c]);
    assert [c][1..] == [];
    assert ChainBytes(y, [c]) == y[c] + [];
  }

  lemma {:induction false} SansAdded(t: Tree, c: nat)
    requires c !in t.own && c !in t.at && t.loose == {}
    ensures Sans(LooseAdded(t, c), c) == t
  {
    var u := LooseDropped(LooseAdded(t, c), c);
    assert u.own == t.own;
    assert u.at == t.at;
  }

  lemma {:induction false} SansExtended(t: Tree, k: nat, c: nat)
    requires k in t.own && k in t.loose && c !in t.at
    ensures Sans(LooseExtended(t, k, c), k) == Sans(t, k)
  {
    var u, w := LooseDropped(LooseExtended(t, k, c), k), LooseDropped(t, k);
    assert u.own == w.own;
    var a, b := t.own[k].chain, t.own[k].chain + [c];
    assert (set x | x in b) == (set x | x in a) + {c};
    assert u.at == w.at;
  }

  /** The bytes of a cluster filled from a buffer and padded with zeros. */
  function Padded(buf: seq<Byte>, n: nat): (b: seq<Byte>)
    requires |buf| <= n
    ensures |b| == n
  {
    buf + Zeros(n - |buf|)
  }

  /** The stream after its first cluster has been taken. */
  lemma {:induction false} LaidFirst(geo: Geo, x: Disk, t: Tree, lay: Layout, c: nat, b: seq<Byte>, bytes: seq<Byte>)
    requires Inv(geo, x, t, lay) && 2 <= c < geo.Total() && c < |x.bits| && !x.bits[c] && |b| == geo.ClusBytes()
    requires Laid(x.heap, t, 0, 0, bytes)
    ensures c < |x.fat| && c < |x.heap|
    ensures
      var y, t' := NewLoose(x, c, b), LooseAdded(t, c);
      && Inv(geo, y, t', lay) && Laid(y.heap, t', c, c, bytes + b)
      && StreamFrame(t, 0, x.heap, t', c, y.heap)
  {
    hide Inv, LooseAdded, Sans, Laid, ChainBytes;
    StreamStart(geo, x, t, lay, c, b);
    FreshParts(geo, x, t, lay, c);
    LaidNothing(x.heap, t, bytes);
    LooseAddedParts(t, c);
    var y := NewLoose(x, c, b);
    LaidOne(y.heap, LooseAdded(t, c), c, b);
    assert bytes + b == b;
    SansAdded(t, c);
    SansNone(t);
  }

  lemma {:induction false} FreshParts(geo: Geo, x: Disk, t: Tree, lay: Layout, c: nat)
    requires Inv(geo, x, t, lay) && 2 <= c < geo.Total() && c < |x.bits| && !x.bits[c]
    ensures c !in t.own && c !in t.at && forall k <- t.dirs :: k in t.own
  {
    hide RefsOk, LayoutOk;
    InvParts(geo, x, t, lay);
    hide Inv;
    FreeOutside(geo, x, t.own, t.at, c);
  }

  lemma {:induction false} LaidNothing(heap: Heap, t: Tree, bytes: seq<Byte>)
    requires Laid(heap, t, 0, 0, bytes)
    ensures t.loose == {} && bytes == []
  {
  }

  lemma {:induction false} LaidOne(heap: Heap, t: Tree, c: nat, b: seq<Byte>)
    requires t.loose == {c} && c in t.own && t.own[c] == Owner([c], false) && c !in t.dirs && c != 0
    requires c < |heap| && heap[c] == b
    ensures Laid(heap, t, c, c, b)
  {
    assert [c][1..] == [];
    assert ChainBytes(heap, [c]) == b + [];
  }

  lemma {:induction false} SansNone(t: Tree)
    requires t.loose == {}
    ensures Sans(t, 0) == t
  {
  }

  /** The stream after one more cluster. */
  lemma {:induction false} LaidMore(geo: Geo, x: Disk, t: Tree, lay: Layout, first: nat, prev: nat, c: nat,
      b: seq<Byte>, bytes: seq<Byte>)
    requires Inv(geo, x, t, lay) && 2 <= c < geo.Total() && c < |x.bits| && !x.bits[c] && |b| == geo.ClusBytes()
    requires Laid(x.heap, t, first, prev, bytes) && first != 0
    ensures prev < |x.fat| && c < |x.fat| && c < |x.heap|
    ensures
      var y, t' := WithCluster(LinkedIn(x, prev, c), c, b), LooseExtended(t, first, c);
      && Inv(geo, y, t', lay) && Laid(y.heap, t', first, c, bytes + b)
      && StreamFrame(t, first, x.heap, t', first, y.heap)
  {
    hide Inv, SpaceOk, RefsOk, LayoutOk, Sans, ChainBytes, LinkedIn, LooseExtended, Laid, WithCluster;
    LaidParts(x.heap, t, first, prev, bytes);
    StreamMore(geo, x, t, lay, first, c, b);
    InvParts(geo, x, t, lay);
    FreeOutside(geo, x, t.own, t.at, c);
    LaidExtended(x, t, first, prev, c, b, bytes);
    SansExtended(t, first, c);
    SansAt(t, first);
  }

  lemma {:induction false} LaidParts(heap: Heap, t: Tree, first: nat, prev: nat, bytes: seq<Byte>)
    requires Laid(heap, t, first, prev, bytes) && first != 0
    ensures first in t.loose && first in t.own && !t.own[first].contig && first !in t.dirs
    ensures t.own[first].chain != [] && prev == t.own[first].chain[|t.own[first].chain| - 1]
  {
  }

  lemma {:induction false} LaidExtended(x: Disk, t: Tree, first: nat, prev: nat, c: nat, b: seq<Byte>, bytes: seq<Byte>)
    requires Laid(x.heap, t, first, prev, bytes) && first != 0 && first in t.own
    requires prev < |x.fat| && c < |x.fat| && c < |x.bits| && c < |x.heap| && c !in t.at
    requires forall i :: 0 <= i < |t.own[first].chain| ==> t.own[first].chain[i] != c
    ensures
      var y := WithCluster(LinkedIn(x, prev, c), c, b);
      && Laid(y.heap, LooseExtended(t, first, c), first, c, bytes + b)
      && |y.heap| == |x.heap| && forall i :: 0 <= i < |x.heap| && i != c ==> y.heap[i] == x.heap[i]
  {
    ChainBytesMore(x.heap, WithCluster(LinkedIn(x, prev, c), c, b).heap, t.own[first].chain, c);
    hide ChainBytes;
  }

  lemma {:induction false} SansAt(t: Tree, k: nat)
    ensures forall c <- Sans(t, k).at :: c in t.at
  {
  }

  lemma {:induction false} StreamFrameTrans(t0: Tree, f0: nat, h0: Heap, t1: Tree, f1: nat, h1: Heap, t2: Tree,
      f2: nat, h2: Heap)
    requires StreamFrame(t0, f0, h0, t1, f1, h1) && StreamFrame(t1, f1, h1, t2, f2, h2)
    ensures StreamFrame(t0, f0, h0, t2, f2, h2)
  {
    hide Sans;
  }

  lemma {:induction false} FlushFacts(geo: Geo, x: Disk, t: Tree, lay: Layout, first: nat, prev: nat, bytes: seq<Byte>)
    requires Inv(geo, x, t, lay) && Laid(x.heap, t, first, prev, bytes)
    ensures geo.Valid() && DiskOk(geo, x) && |x.bits| == geo.Total()
    ensures (first == 0) == (prev == 0)
    ensures first != 0 ==> first in t.own && t.own[first].chain != []
    ensures first != 0 ==> prev == t.own[first].chain[|t.own[first].chain| - 1]
  {
    hide RefsOk, LayoutOk, InHeap, Placed, Charted;
    if first != 0 {
      assert OwnerOk(x.fat, t.own[first]);
    }
  }

  lemma {:induction false} BitsFit(geo: Geo, x: Disk, c: nat)
    requires DiskOk(geo, x) && c < geo.Total()
    ensures c < |x.bits| && c < |x.fat| && c < |x.heap| && |x.heap[c]| == geo.ClusBytes()
  {
  }

  lemma {:induction false} StreamFrameRefl(t: Tree, first: nat, h: Heap)
    ensures StreamFrame(t, first, h, t, first, h)
  {
  }

  /** Bytes copied to the buffer join the data. */
  lemma {:induction false} TakeBytes(geo: Geo, heap: Heap, t: Tree, s: Stream, data: seq<Byte>, src: seq<Byte>,
      take: nat)
    requires Streaming(geo, heap, t, s, data) && take <= |src| && |s.buf| + take <= geo.ClusBytes()
    ensures Streaming(geo, heap, t, s.(buf := s.buf + src[..take], len := (s.len + take) % TWO32), data + src[..take])
  {
    hide Laid;
    AddMod(|data|, take, TWO32);
    var data', buf' := data + src[..take], s.buf + src[..take];
    assert data'[|data'| - |buf'|..] == buf';
    assert data'[..|data'| - |buf'|] == data[..|data| - |s.buf|];
  }

  lemma {:induction false} Flushed(geo: Geo, heap: Heap, t: Tree, s: Stream, data: seq<Byte>)
    requires Laid(heap, t, s.first, s.prev, data + Zeros(0)) && s.buf == []
    requires geo.ClusBytes() <= STREAM_BUFFER && s.len == |data| % TWO32
    ensures Streaming(geo, heap, t, s, data)
  {
    hide Laid;
    assert data + Zeros(0) == data && data[..|data|] == data;
  }

  lemma {:induction false} HeapTrans(at: Places, h0: Heap, h1: Heap, h2: Heap)
    requires HeapKept(at, h0, h1) && HeapKept(at, h1, h2)
    ensures HeapKept(at, h0, h2)
  {
  }

  lemma {:induction false} HeapSame(at: Places, h0: Heap, h: Heap)
    requires h == h0
    ensures HeapKept(at, h0, h)
  {
  }

  lemma {:induction false} AbortFrame(t0: Tree, f0: nat, h0: Heap, t: Tree, f: nat, h: Heap)
    requires StreamFrame(t0, f0, h0, t, f, h)
    ensures Sans(t, f) == Sans(t0, f0) && HeapKept(Sans(t, f).at, h0, h)
  {
    hide Sans;
  }

  lemma {:induction false} LaidLoose(heap: Heap, t: Tree, first: nat, prev: nat, bytes: seq<Byte>)
    requires Laid(heap, t, first, prev, bytes)
    ensures t.loose <= {first} && t.loose <= t.own.Keys
  {
  }

  lemma {:induction false} FrameOwn(t0: Tree, f0: nat, h0: Heap, t: Tree, f: nat, h: Heap)
    requires StreamFrame(t0, f0, h0, t, f, h) && t0.loose <= {f0} && t.loose <= {f}
    ensures t.dirs == t0.dirs
    ensures forall k <- t0.own :: k !in t0.loose ==> k in t.own && t.own[k] == t0.own[k]
  {
    forall k | k in t0.own && k !in t0.loose
      ensures k in t.own && t.own[k] == t0.own[k]
    {
      assert k in Sans(t0, f0).own;
    }
  }

  lemma {:induction false} StreamEmpty(geo: Geo, heap: Heap, t: Tree)
    requires t.loose == {} && geo.ClusBytes() <= STREAM_BUFFER
    ensures Streaming(geo, heap, t, Stream(true, 0, 0, 0, []), [])
  {
    var none: seq<Byte> := [];
    assert none[..0] == none && none[0..] == none;
  }

  /** The stream does not notice operations that leave its clusters alone. */
  lemma {:induction false} StreamKept(geo: Geo, h0: Heap, t0: Tree, h: Heap, t: Tree, s: Stream, data: seq<Byte>)
    requires StreamOk(geo, h0, t0, s, data) && t.loose == t0.loose && |h| == |h0|
    requires forall k <- t0.loose ::
      && k in t0.own && k in t.own && t.own[k] == t0.own[k]
      && (k !in t0.dirs ==> k !in t.dirs)
    requires forall k, i ::
      && k in t0.loose && k in t0.own && k !in t0.dirs
      && 0 <= i < |t0.own[k].chain| && t0.own[k].chain[i] < |h0| ==>
      h[t0.own[k].chain[i]] == h0[t0.own[k].chain[i]]
    ensures StreamOk(geo, h, t, s, data)
  {
    if s.active && s.first != 0 {
      assert s.first in t0.loose;
      ChainBytesFrame(h0, h, t0.own[s.first].chain);
    }
  }

  lemma {:induction false} StreamIdle(geo: Geo, heap: Heap, t: Tree, s: Stream, data: seq<Byte>)
    requires StreamOk(geo, heap, t, s, data) && !s.active
    ensures t.loose == {}
  {
  }

  lemma {:induction false} IdleOk(geo: Geo, heap: Heap, t: Tree, s: Stream, data: seq<Byte>)
    requires !s.active && t.loose == {}
    ensures StreamOk(geo, heap, t, s, data)
  {
  }

  lemma {:induction false} StreamOpened(geo: Geo, heap: Heap, t: Tree)
    requires t.loose == {} && 0 < geo.ClusBytes() <= STREAM_BUFFER
    ensures StreamOk(geo, heap, t, Stream(true, 0, 0, 0, []), [])
  {
    StreamEmpty(geo, heap, t);
  }

  lemma {:induction false} StreamLoose(geo: Geo, heap: Heap, t: Tree, s: Stream, data: seq<Byte>)
    requires Streaming(geo, heap, t, s, data)
    ensures t.loose <= {s.first}
  {
  }
}
