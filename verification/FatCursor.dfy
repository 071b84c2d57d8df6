/** The FAT driver's chunked read with its cached cursor: what a read returns, for any reads before it. */
module FatCursor {
  import opened Arith
  import opened Bytes
  import opened FatTable
  import opened ExfatSpace

  /** The driver reads clusters through a buffer of this size. */
  const READ_BUFFER: nat := 16384

  /** What a lookup of a path tells about a file. */
  datatype File = File(first: nat, size: nat)

  predicate DataSized(data: seq<seq<Byte>>, total: nat, bytes: nat) {
    |data| == total && forall c :: 0 <= c < |data| ==> |data[c]| == bytes
  }

  /** The bytes of a chain's clusters in order. */
  function ChainData(data: seq<seq<Byte>>, chain: seq<nat>): seq<Byte>
    requires forall i :: 0 <= i < |chain| ==> chain[i] < |data|
  {
    if chain == [] then [] else ChainData(data, chain[..|chain| - 1]) + data[chain[|chain| - 1]]
  }

  lemma {:induction false} ChainDataSize(data: seq<seq<Byte>>, chain: seq<nat>, bytes: nat)
    requires DataSized(data, |data|, bytes) && forall i :: 0 <= i < |chain| ==> chain[i] < |data|
    ensures |ChainData(data, chain)| == |chain| * bytes
  {
    if chain != [] {
      ChainDataSize(data, chain[..|chain| - 1], bytes);
      assert |chain| * bytes == (|chain| - 1) * bytes + bytes;
    }
  }

  /** What lies before and in cluster i of a chain is at the front. */
  lemma {:induction false} ChainFront(data: seq<seq<Byte>>, chain: seq<nat>, i: nat)
    requires (forall k :: 0 <= k < |chain| ==> chain[k] < |data|) && i < |chain|
    ensures ChainData(data, chain[..i]) + data[chain[i]] <= ChainData(data, chain)
    decreases |chain|
  {
    var front := chain[..|chain| - 1];
    if i < |chain| - 1 {
      ChainFront(data, front, i);
      assert front[..i] == chain[..i];
    }
  }

  /** A piece of cluster i of a chain, seen in the whole. */
  lemma {:induction false} ChainPiece(data: seq<seq<Byte>>, chain: seq<nat>, bytes: nat, i: nat, p: nat, lo: nat,
      n: nat)
    requires DataSized(data, |data|, bytes) && (forall k :: 0 <= k < |chain| ==> chain[k] < |data|) && i < |chain|
    requires lo + n <= bytes && p == i * bytes
    ensures p + lo + n <= |ChainData(data, chain)|
    ensures ChainData(data, chain)[p + lo..p + lo + n] == data[chain[i]][lo..lo + n]
  {
    ChainDataSize(data, chain[..i], bytes);
    ChainFront(data, chain, i);
    hide ChainData;
    PieceOf(ChainData(data, chain[..i]), data[chain[i]], ChainData(data, chain), lo, n);
  }

  lemma {:induction false} PieceOf(a: seq<Byte>, b: seq<Byte>, all: seq<Byte>, lo: nat, n: nat)
    requires a + b <= all && lo + n <= |b|
    ensures |a| + lo + n <= |all| && all[|a| + lo..|a| + lo + n] == b[lo..lo + n]
  {
    assert (a + b)[|a| + lo..|a| + lo + n] == b[lo..lo + n];
  }

  /** Bytes that fit n at most. */
  function Clipped(a: nat, b: nat): (m: nat)
    ensures m <= a && m <= b && (m == a || m == b)
  {
    if a < b then a else b
  }

  class Reader {
    const table: Table
    /** Bytes in a cluster. */
    const bytes: nat
    /** What each cluster holds. */
    const data: seq<seq<Byte>>
    var rcPath: seq<Byte>
    var rcFirst: nat
    var rcSize: nat
    var rcCluster: nat
    var rcPos: nat

    constructor (table: Table, bytes: nat, data: seq<seq<Byte>>)
      requires table.Ready() && Sizes(bytes) && DataSized(data, table.total, bytes)
      ensures Valid() && rcPath == []
    {
      hide Table.Ready;
      this.table, this.bytes, this.data := table, bytes, data;
      rcPath, rcFirst, rcSize, rcCluster, rcPos := [], 0, 0, 0, 0;
    }

    ghost predicate Valid()
      reads table
    {
      table.Ready() && Sizes(bytes) && DataSized(data, table.total, bytes)
    }

    /** The clusters of a file. */
    ghost function ChainOf(f: File): seq<nat>
      reads table
    {
      if f.first in table.own then table.own[f.first].chain else []
    }

    /** A file's clusters cover its length, which has 32 bits. */
    ghost predicate FileOk(f: File)
      reads table
    {
      f.size < TWO32 && f.size <= |ChainOf(f)| * bytes && (f.first == 0 || f.first in table.own) && 0 !in table.own
    }

    /** The cursor stands at cluster number idx of a file, or behind its last one; its position has 32 bits. */
    ghost predicate At(f: File, idx: nat)
      reads this, table
    {
      && rcFirst == f.first && rcSize == f.size && idx <= |ChainOf(f)| && rcPos == idx * bytes % TWO32
      && if idx < |ChainOf(f)| then rcCluster == ChainOf(f)[idx] && idx * bytes < TWO32 else rcCluster == 0
    }

    ghost predicate OnFile(f: File)
      reads this, table
    {
      exists idx: nat :: At(f, idx)
    }

    /** An earlier read of the same path has left the cursor behind the file's last cluster, at a position
        that does not send it back to the start. */
    predicate Stuck(path: seq<Byte>, offset: nat)
      reads this
    {
      rcPath != [] && rcPath == path && rcCluster == 0 && offset >= rcPos
    }

    ghost function FileData(f: File): (b: seq<Byte>)
      requires Valid() && FileOk(f)
      reads table
      ensures f.size <= |b|
    {
      ChainInData(table, data, bytes, ChainOf(f), f.first);
      SizedData(data, table.total, bytes);
      ChainDataSize(data, ChainOf(f), bytes);
      ChainData(data, ChainOf(f))
    }

    /** What a read returns. */
    ghost function ReadResult(f: File, offset: nat, len: nat, stuck: bool): Option<seq<Byte>>
      requires Valid() && FileOk(f)
      reads table
    {
      if offset >= f.size || len == 0 then Some([])
      else if offset < TWO32 - bytes && !stuck then Some(FileData(f)[offset..Clipped(offset + len, f.size)])
      else None
    }

    /** fat_read_at, given what a lookup of the path would tell. A cursor that is cached for the path is that
        file's: every operation that changes files drops it. */
    method ReadAt(path: seq<Byte>, look: Option<File>, offset: nat, len: nat) returns (r: Option<seq<Byte>>)
      requires Valid() && offset < TWO32 && len < TWO32 && (look.Some? ==> FileOk(look.value))
      requires rcPath != [] && rcPath == path ==> look.Some? && OnFile(look.value)
      modifies this`rcPath, this`rcFirst, this`rcSize, this`rcCluster, this`rcPos
      ensures look.None? ==> r == None && rcPath == old(rcPath)
      ensures look.Some? ==>
        && rcPath == path && OnFile(look.value)
        && r == ReadResult(look.value, offset, len, old(Stuck(path, offset)))
        && (r == None ==> rcCluster == 0)
    {
      hide Table.Ready, DataSized;
      if look == None {
        return None;
      }
      var f := look.value;
      ghost var stuck := Stuck(path, offset);
      if rcPath == [] || rcPath != path || offset < rcPos {
        rcPath, rcFirst, rcSize, rcCluster, rcPos := path, f.first, f.size, f.first, 0;
        ChainNonZero(table, f.first);
        assert At(f, 0);
      }
      ghost var idx: nat :| At(f, idx);
      if offset >= rcSize {
        return Some([]);
      }
      var n := Clipped(len, rcSize - offset);
      if n == 0 {
        return Some([]);
      }
      idx := Seek(f, offset, idx);
      if rcCluster == 0 {
        return None;
      }
      var out := CopyOut(f, offset, n, idx);
      r := Some(out);
    }

    /** Cluster number idx of a file, or 0 behind its last one. */
    ghost function ClusterAt(f: File, idx: nat): nat
      reads table
    {
      if idx < |ChainOf(f)| then ChainOf(f)[idx] else 0
    }

    /** The next cluster, and the position that belongs to it. */
    method Step(ghost f: File, ghost idx: nat)
      requires Valid() && FileOk(f) && idx < |ChainOf(f)| && rcCluster == ClusterAt(f, idx)
      modifies this`rcCluster, this`rcPos
      ensures rcCluster == ClusterAt(f, idx + 1) && rcPos == (old(rcPos) + bytes) % TWO32
      ensures rcCluster != 0 <==> idx + 1 < |ChainOf(f)|
    {
      hide LinksIn, Chained, View;
      LinkAt(table, f.first, idx);
      rcCluster := table.NextCluster(rcCluster);
      rcPos := (rcPos + bytes) % TWO32;
    }

    /** Walk to the cluster that holds the offset. In the last cluster below 4 GiB the position after it wraps
        to 0, so the walk goes on to the end of the chain. */
    method Seek(ghost f: File, offset: nat, ghost idx0: nat) returns (ghost idx: nat)
      requires Valid() && FileOk(f) && At(f, idx0) && offset < f.size && rcPos <= offset
      modifies this`rcCluster, this`rcPos
      ensures At(f, idx)
      ensures old(rcCluster) == 0 || offset >= TWO32 - bytes ==> rcCluster == 0
      ensures old(rcCluster) != 0 && offset < TWO32 - bytes ==>
        rcCluster != 0 && idx < |ChainOf(f)| && idx * bytes <= offset < idx * bytes + bytes
    {
      hide Table.Ready, DataSized, Sizes;
      idx := idx0;
      SizeFacts(bytes);
      ChainNonZero(table, f.first);
      while rcCluster != 0 && (rcPos + bytes) % TWO32 <= offset
        invariant Valid() && FileOk(f) && rcFirst == f.first && rcSize == f.size
        invariant idx <= |ChainOf(f)| && rcCluster == ClusterAt(f, idx) && rcPos == idx * bytes % TWO32
        invariant rcCluster != 0 <==> idx < |ChainOf(f)|
        invariant old(rcCluster) != 0 && offset < TWO32 - bytes ==> idx * bytes <= offset && idx < |ChainOf(f)|
        invariant old(rcCluster) == 0 ==> rcCluster == 0
        decreases |ChainOf(f)| - idx
      {
        PosFacts(idx, bytes);
        Step(f, idx);
        NextPos(idx, bytes);
        CoverNext(idx, bytes, offset, |ChainOf(f)|, f.size);
        idx := idx + 1;
      }
      PosFacts(idx, bytes);
    }

    /** The cursor in the middle of a copy: it stands at cluster number idx, without wrapping. */
    ghost predicate Copying(f: File, idx: nat)
      reads this, table
    {
      && rcFirst == f.first && rcSize == f.size && idx <= |ChainOf(f)|
      && rcCluster == ClusterAt(f, idx) && (rcCluster != 0 <==> idx < |ChainOf(f)|)
      && rcPos == idx * bytes < TWO32
    }

    /** Copy cluster by cluster. */
    method CopyOut(ghost f: File, offset: nat, n: nat, ghost idx0: nat) returns (out: seq<Byte>)
      requires Valid() && FileOk(f) && At(f, idx0) && rcCluster != 0 && n > 0 && offset + n <= f.size
      requires idx0 * bytes <= offset < idx0 * bytes + bytes
      modifies this`rcCluster, this`rcPos
      ensures OnFile(f) && out == FileData(f)[offset..offset + n]
    {
      hide Valid, FileOk, ChainOf;
      ghost var idx, all := idx0, FileData(f);
      CopyStart(f, idx);
      out := [];
      while |out| < n && rcCluster != 0
        invariant Valid() && FileOk(f) && |out| <= n && Copying(f, idx)
        invariant out == all[offset..offset + |out|]
        invariant |out| < n ==> rcCluster != 0 && rcPos <= offset + |out| < rcPos + bytes
        decreases n - |out|
      {
        ghost var done := |out|;
        var part;
        part, idx := CopyPiece(f, offset + |out|, n - |out|, idx);
        JoinPiece(all, offset, offset + done, |part|);
        out := out + part;
      }
      CopyEnd(f, idx);
    }

    ghost method CopyStart(f: File, idx: nat)
      requires Valid() && FileOk(f) && At(f, idx) && rcCluster != 0
      ensures Copying(f, idx)
    {
      hide Table.Ready, DataSized, Sizes;
      ChainNonZero(table, f.first);
      if idx * bytes < TWO32 {
        PosSame(idx, bytes);
      }
    }

    ghost method CopyEnd(f: File, idx: nat)
      requires Valid() && FileOk(f) && Copying(f, idx)
      ensures OnFile(f)
    {
      hide Table.Ready, DataSized, Sizes;
      PosSame(idx, bytes);
      assert At(f, idx);
    }

    /** Copy from one cluster, and move on when its end is reached. */
    method CopyPiece(ghost f: File, from: nat, left: nat, ghost idx0: nat) returns (part: seq<Byte>, ghost idx: nat)
      requires Valid() && FileOk(f) && Copying(f, idx0) && rcCluster != 0 && left > 0 && from + left <= f.size
      requires rcPos <= from < rcPos + bytes
      modifies this`rcCluster, this`rcPos
      ensures 0 < |part| <= left && part == FileData(f)[from..from + |part|]
      ensures Copying(f, idx)
      ensures |part| < left ==> rcCluster != 0 && rcPos <= from + |part| < rcPos + bytes
    {
      hide Table.Ready, DataSized, Sizes;
      idx := idx0;
      SizeFacts(bytes);
      ChainInData(table, data, bytes, ChainOf(f), f.first);
      ChainNonZero(table, f.first);
      SizedData(data, table.total, bytes);
      var inOff := from - rcPos;
      var chunk := Clipped(bytes - inOff, left);
      ChainPiece(data, ChainOf(f), bytes, idx, rcPos, inOff, chunk);
      CellSize(data, table.total, bytes, rcCluster);
      part := data[rcCluster][inOff..inOff + chunk];
      if inOff + chunk >= bytes {
        CoverNext(idx, bytes, from + chunk, |ChainOf(f)|, f.size);
        PosSmall(idx, bytes, from + chunk);
        PosFacts(idx, bytes);
        Step(f, idx);
        idx := idx + 1;
      }
    }
  }

  lemma {:induction false} SizeFacts(bytes: nat)
    requires Sizes(bytes)
    ensures 512 <= bytes <= READ_BUFFER
  {
  }

  lemma {:induction false} SizedData(data: seq<seq<Byte>>, total: nat, bytes: nat)
    requires DataSized(data, total, bytes)
    ensures |data| == total && DataSized(data, |data|, bytes)
  {
  }

  lemma {:induction false} CellSize(data: seq<seq<Byte>>, total: nat, bytes: nat, c: nat)
    requires DataSized(data, total, bytes) && c < |data|
    ensures |data[c]| == bytes
  {
  }

  /** A file's clusters are clusters of the table, and none is 0. */
  lemma {:induction false} ChainInData(table: Table, data: seq<seq<Byte>>, bytes: nat, chain: seq<nat>, first: nat)
    requires table.Ready() && DataSized(data, table.total, bytes)
    requires chain == if first in table.own then table.own[first].chain else []
    ensures forall i :: 0 <= i < |chain| ==> chain[i] < |data|
  {
    if first in table.own {
      OwnedChain(table.Chains(), table.own, table.at, first);
    }
  }

  lemma {:induction false} ChainNonZero(table: Table, first: nat)
    requires table.Ready()
    ensures first in table.own ==>
      var chain := table.own[first].chain;
      chain != [] && chain[0] == first && forall i :: 0 <= i < |chain| ==> 2 <= chain[i] < table.total
  {
    hide View, LinksIn;
    if first in table.own {
      OwnedChain(table.Chains(), table.own, table.at, first);
    }
  }

  lemma {:induction false} LinkAt(table: Table, first: nat, i: nat)
    requires table.Ready() && first in table.own && i < |table.own[first].chain|
    ensures
      var chain := table.own[first].chain;
      && 2 <= chain[i] < table.total && table.copies != [] && |table.Chains()| == table.total
      && table.Chains()[chain[i]] == (if i + 1 < |chain| then chain[i + 1] else EOC_WRITE)
      && (i + 1 < |chain| ==> 2 <= chain[i + 1] < table.total && chain[i + 1] != EOC_WRITE)
  {
    OwnedChain(table.Chains(), table.own, table.at, first);
    hide View, LinksIn;
    var chain := table.own[first].chain;
    assert i + 1 < |chain| ==> table.Chains()[chain[i]] == chain[i + 1];
  }

  lemma {:induction false} PosMultiple(idx: nat, bytes: nat)
    requires Sizes(bytes)
    ensures idx * bytes % TWO32 <= TWO32 - bytes
  {
    hide Sizes, Div;
    var q := Divides(bytes);
    var a, i := Div(idx, q), idx - q * Div(idx, q);
    DivRest(idx, q);
    SplitProduct(idx, q, a, i, bytes);
    MulAtLeastMul(i + 1, q, bytes);
    assert (i + 1) * bytes == i * bytes + bytes;
    UniqueQuotient(idx * bytes, TWO32, a, i * bytes);
  }

  lemma {:induction false} DivRest(v: nat, m: nat)
    requires m > 0
    ensures 0 <= v - m * Div(v, m) < m
  {
  }

  lemma {:induction false} Divides(bytes: nat) returns (q: nat)
    requires Sizes(bytes)
    ensures q > 0 && q * bytes == TWO32
  {
    q := if bytes == 512 then 0x80_0000 else if bytes == 1024 then 0x40_0000 else if bytes == 2048 then 0x20_0000
      else if bytes == 4096 then 0x10_0000 else if bytes == 8192 then 0x8_0000 else 0x4_0000;
  }

  lemma {:induction false} SplitProduct(idx: nat, q: nat, a: nat, i: nat, bytes: nat)
    requires idx == q * a + i
    ensures idx * bytes == (q * bytes) * a + i * bytes
  {
    assert (q * a + i) * bytes == q * a * bytes + i * bytes;
    assert q * a * bytes == (q * bytes) * a;
  }

  lemma {:induction false} NextPos(idx: nat, bytes: nat)
    ensures (idx * bytes % TWO32 + bytes) % TWO32 == (idx + 1) * bytes % TWO32
  {
    AddMod(idx * bytes, bytes, TWO32);
    assert idx * bytes + bytes == (idx + 1) * bytes;
  }

  /** The position of the next cluster: never above the last boundary below 4 GiB. */
  lemma {:induction false} PosFacts(idx: nat, bytes: nat)
    requires Sizes(bytes)
    ensures (idx * bytes % TWO32 + bytes) % TWO32 <= TWO32 - bytes
    ensures idx * bytes + bytes < TWO32 ==>
      idx * bytes % TWO32 == idx * bytes && (idx * bytes % TWO32 + bytes) % TWO32 == idx * bytes + bytes
  {
    NextPos(idx, bytes);
    PosMultiple(idx + 1, bytes);
    if idx * bytes + bytes < TWO32 {
      PosSame(idx, bytes);
      UniqueQuotient(idx * bytes + bytes, TWO32, 0, idx * bytes + bytes);
    }
  }

  /** Below the last cluster under 4 GiB nothing wraps. */
  lemma {:induction false} CoverNext(idx: nat, bytes: nat, offset: nat, n: nat, size: nat)
    requires offset < size <= n * bytes || offset <= size <= n * bytes
    ensures (idx + 1) * bytes == idx * bytes + bytes
    ensures offset < size && (idx + 1) * bytes <= offset ==> idx + 1 < n
  {
    if idx + 1 >= n {
      MulAtLeastMul(n, idx + 1, bytes);
    }
  }

  lemma {:induction false} PosSmall(idx: nat, bytes: nat, end: nat)
    requires (idx + 1) * bytes <= end < TWO32
    ensures (idx + 1) * bytes % TWO32 == (idx + 1) * bytes < TWO32
  {
    UniqueQuotient((idx + 1) * bytes, TWO32, 0, (idx + 1) * bytes);
  }

  lemma {:induction false} PosSame(idx: nat, bytes: nat)
    requires idx * bytes < TWO32
    ensures idx * bytes % TWO32 == idx * bytes
  {
    UniqueQuotient(idx * bytes, TWO32, 0, idx * bytes);
  }

  lemma {:induction false} JoinPiece(all: seq<Byte>, lo: nat, mid: nat, n: nat)
    requires lo <= mid && mid + n <= |all|
    ensures all[lo..mid] + all[mid..mid + n] == all[lo..mid + n]
  {
  }

  /** Clusters are powers of two, from a sector up to the read buffer. */
  predicate Sizes(bytes: nat) { bytes in {512, 1024, 2048, 4096, 8192, 16384} }

  /** A file as long as FAT allows: a read in its last cluster fails, and then so does one at its start. */
  method FailTwice(r: Reader, path: seq<Byte>, f: File) returns (last: Option<seq<Byte>>, first: Option<seq<Byte>>)
    requires r.Valid() && r.FileOk(f) && path != [] && r.rcPath == []
    requires f.size == TWO32 - 1 && |r.ChainOf(f)| * r.bytes == TWO32
    modifies r`rcPath, r`rcFirst, r`rcSize, r`rcCluster, r`rcPos
    ensures last == None && first == None
  {
    hide Table.Ready, DataSized, Sizes;
    SizeFacts(r.bytes);
    ChainNonZero(r.table, f.first);
    last := r.ReadAt(path, Some(f), TWO32 - r.bytes, 1);
    ghost var idx: nat :| r.At(f, idx);
    assert r.rcPos == 0;
    first := r.ReadAt(path, Some(f), 0, 1);
  }
}
