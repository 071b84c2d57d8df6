/** The FAT16/32 driver's allocation table: its copies, the allocator, chains, and the clusters of an
    open write stream. */
module FatTable {
  import opened Arith
  import opened Bytes
  import opened ExfatSpace

  const TOP: nat := 0x1000_0000

  datatype Kind = Fat16 | Fat32

  /** Values from here on end a chain. */
  function Last(kind: Kind): nat { if kind.Fat16? then 0xFFF8 else 0x0FFF_FFF8 }

  /** Entries in one sector of the table. */
  function PerSector(kind: Kind): (n: nat)
    ensures n > 0
  {
    if kind.Fat16? then 256 else 128
  }

  /** The value of a raw entry: FAT32 reserves the top four bits. */
  function Value(kind: Kind, raw: nat): nat { if kind.Fat16? then raw else raw % TOP }

  /** A raw entry with a new value: the reserved bits stay. */
  function WithValue(kind: Kind, raw: nat, v: nat): nat {
    if kind.Fat16? then v % TWO16 else raw / TOP * TOP + v % TOP
  }

  predicate RawOk(kind: Kind, raw: nat) { raw < if kind.Fat16? then TWO16 else TWO32 }

  lemma {:induction false} ValueWritten(kind: Kind, raw: nat, v: nat)
    requires RawOk(kind, raw) && v < (if kind.Fat16? then TWO16 else TOP)
    ensures RawOk(kind, WithValue(kind, raw, v)) && Value(kind, WithValue(kind, raw, v)) == v
    ensures kind.Fat32? ==> WithValue(kind, raw, v) / TOP == raw / TOP
  {
  }

  /** Writing a value and then the old one back restores the raw entry. */
  lemma {:induction false} ValueRestored(kind: Kind, raw: nat, v: nat)
    requires RawOk(kind, raw) && v < (if kind.Fat16? then TWO16 else TOP)
    ensures WithValue(kind, WithValue(kind, raw, v), Value(kind, raw)) == raw
  {
  }

  /** The chain values of a copy: where each cluster leads, end marks made uniform. */
  function View(kind: Kind, fat: seq<nat>): (v: seq<nat>)
    ensures |v| == |fat|
  {
    seq(|fat|, c requires 0 <= c < |fat| => Norm(kind, Value(kind, fat[c])))
  }

  function Norm(kind: Kind, v: nat): nat { if v >= Last(kind) then EOC_WRITE else v }

  lemma {:induction false} ViewUpdate(kind: Kind, fat: seq<nat>, c: nat, raw: nat)
    requires c < |fat|
    ensures View(kind, fat[c := raw]) == View(kind, fat)[c := Norm(kind, Value(kind, raw))]
  {
  }

  // ---- Ownership ------------------------------------------------------------------------------

  /** Every non-zero entry belongs to exactly one chain, and chains end. */
  ghost predicate Chained(view: seq<nat>, own: Owners, at: Places) {
    && OwnersOk(view, own) && Placed(own, at)
    && (forall k <- own :: !own[k].contig)
    && (forall c <- at :: 2 <= c < |view|)
    && forall c :: 2 <= c < |view| ==> (view[c] != 0 <==> c in at)
  }

  lemma {:induction false} ChainedNew(view: seq<nat>, own: Owners, at: Places, c: nat)
    requires Chained(view, own, at) && 2 <= c < |view| && view[c] == 0
    ensures c !in own && c !in at
    ensures Chained(view[c := EOC_WRITE], own[c := Owner([c], false)], at[c := (c, 0)])
  {
    NotFirst(view, own, at, c);
    hide OwnersOk, Placed;
    OwnersNew(own, at, view, c);
    PlacedNew(own, at, c);
  }

  lemma {:induction false} NotFirst(view: seq<nat>, own: Owners, at: Places, c: nat)
    requires Chained(view, own, at) && 2 <= c < |view| && view[c] == 0
    ensures c !in own && c !in at
  {
  }

  lemma {:induction false} ChainedExtend(view: seq<nat>, own: Owners, at: Places, k: nat, c: nat)
    requires Chained(view, own, at) && k in own && 2 <= c < |view| && view[c] == 0
    ensures own[k].chain != [] && own[k].chain[|own[k].chain| - 1] < |view| && own[k].chain[|own[k].chain| - 1] in at
    ensures own[k].chain[|own[k].chain| - 1] != c
    ensures Chained(view[c := EOC_WRITE][own[k].chain[|own[k].chain| - 1] := c],
                    own[k := own[k].(chain := own[k].chain + [c])], at[c := (k, |own[k].chain|)])
  {
    hide OwnersOk, Placed;
    NotFirst(view, own, at, c);
    LastInRange(own, view, k);
    LastPlaced(own, at, k);
    OwnersExtend(own, at, view, k, c);
    PlacedExtend(own, at, k, c);
  }

  lemma {:induction false} LastPlaced(own: Owners, at: Places, k: nat)
    requires Placed(own, at) && k in own && own[k].chain != []
    ensures own[k].chain[|own[k].chain| - 1] in at
  {
  }

  lemma {:induction false} ChainedFree(view: seq<nat>, own: Owners, at: Places, k: nat)
    requires Chained(view, own, at) && k in own
    ensures Chained(FreedFat(view, own[k].chain), own - {k}, at - (set c | c in own[k].chain))
  {
    hide OwnersOk, Placed;
    PlacedFree(own, at, k);
    OwnersFree(own, view, k);
  }

  // ---- The table --------------------------------------------------------------------------------

  /** How many entries of a view are in use. */
  function InUse(view: seq<nat>): nat {
    if view == [] then 0 else InUse(view[..|view| - 1]) + if view[|view| - 1] != 0 then 1 else 0
  }

  lemma {:induction false} InUseCleared(view: seq<nat>, c: nat)
    requires c < |view| && view[c] != 0
    ensures InUse(view[c := 0]) == InUse(view) - 1
  {
    var v := view[c := 0];
    if c == |view| - 1 {
      assert v[..|v| - 1] == view[..|view| - 1];
    } else {
      assert v[..|v| - 1] == view[..|view| - 1][c := 0];
      InUseCleared(view[..|view| - 1], c);
    }
  }

  /** Links that stay inside the table. */
  ghost predicate LinksIn(view: seq<nat>) { forall c :: 0 <= c < |view| ==> view[c] < |view| || view[c] == EOC_WRITE }

  predicate TableOk(kind: Kind, fat: seq<nat>) {
    && |fat| <= Last(kind) && forall c :: 0 <= c < |fat| ==> RawOk(kind, fat[c])
  }

  lemma {:induction false} ClearStep(kind: Kind, fat: seq<nat>, c: nat)
    requires TableOk(kind, fat) && LinksIn(View(kind, fat)) && c < |fat|
    ensures
      var fat' := fat[c := WithValue(kind, fat[c], 0)];
      && TableOk(kind, fat') && LinksIn(View(kind, fat')) && View(kind, fat') == View(kind, fat)[c := 0]
      && InUse(View(kind, fat')) == InUse(View(kind, fat)) - if View(kind, fat)[c] != 0 then 1 else 0
  {
    ValueWritten(kind, fat[c], 0);
    ViewUpdate(kind, fat, c, WithValue(kind, fat[c], 0));
    var view := View(kind, fat);
    if view[c] != 0 {
      InUseCleared(view, c);
    } else {
      assert view[c := 0] == view;
    }
  }

  /** The table after the chain from a cluster on is cleared, whatever it looks like. */
  ghost function FreeAll(kind: Kind, fat: seq<nat>, c: nat): (r: seq<nat>)
    requires TableOk(kind, fat) && LinksIn(View(kind, fat)) && c < |fat|
    ensures |r| == |fat|
    decreases InUse(View(kind, fat))
  {
    if c == 0 then fat
    else
      ClearStep(kind, fat, c);
      var next, fat' := View(kind, fat)[c], fat[c := WithValue(kind, fat[c], 0)];
      if next == 0 || next == EOC_WRITE then fat' else FreeAll(kind, fat', next)
  }

  /** The raw table with a set of clusters cleared. */
  function ClearedAt(kind: Kind, fat: seq<nat>, chain: seq<nat>): (r: seq<nat>)
    ensures |r| == |fat|
  {
    seq(|fat|, c requires 0 <= c < |fat| => if c in chain then WithValue(kind, fat[c], 0) else fat[c])
  }

  /** A well-formed chain: linked, without repetition, ended. */
  ghost predicate IsChain(view: seq<nat>, chain: seq<nat>) {
    && chain != [] && (forall i :: 0 <= i < |chain| ==> 2 <= chain[i] < |view|)
    && (forall i, j :: 0 <= i < j < |chain| ==> chain[i] != chain[j])
    && (forall i :: 0 <= i < |chain| - 1 ==> view[chain[i]] == chain[i + 1])
    && view[chain[|chain| - 1]] == EOC_WRITE
  }

  /** Clearing from the head of a well-formed chain clears exactly that chain. */
  lemma {:induction false} FreeAllChain(kind: Kind, fat: seq<nat>, chain: seq<nat>)
    requires TableOk(kind, fat) && LinksIn(View(kind, fat)) && IsChain(View(kind, fat), chain)
    ensures FreeAll(kind, fat, chain[0]) == ClearedAt(kind, fat, chain)
    decreases |chain|
  {
    hide InUse, WithValue, RawOk;
    ClearStep(kind, fat, chain[0]);
    var view, c := View(kind, fat), chain[0];
    var fat', rest := fat[c := WithValue(kind, fat[c], 0)], chain[1..];
    if rest == [] {
      assert fat' == ClearedAt(kind, fat, chain);
    } else {
      assert IsChain(View(kind, fat'), rest);
      FreeAllChain(kind, fat', rest);
      assert c !in rest;
      assert forall x :: x in chain <==> x == c || x in rest;
      assert ClearedAt(kind, fat', rest) == ClearedAt(kind, fat, chain);
    }
  }

  /** The clusters that are free. */
  function FreeEntries(view: seq<nat>): set<nat> { set c | 2 <= c < |view| && view[c] == 0 }

  lemma {:induction false} FreeTaken(view: seq<nat>, c: nat)
    requires 2 <= c < |view| && view[c] == 0
    ensures FreeEntries(view[c := EOC_WRITE]) == FreeEntries(view) - {c} && c in FreeEntries(view)
    ensures |FreeEntries(view[c := EOC_WRITE])| == |FreeEntries(view)| - 1
  {
  }

  lemma {:induction false} FreeLinked(view: seq<nat>, last: nat, c: nat)
    requires last < |view| && view[last] != 0 && c != 0
    ensures FreeEntries(view[last := c]) == FreeEntries(view)
  {
  }

  lemma {:induction false} FreeGained(view: seq<nat>, chain: seq<nat>)
    requires forall i :: 0 <= i < |chain| ==> 2 <= chain[i] < |view| && view[chain[i]] != 0
    requires forall i, j :: 0 <= i < j < |chain| ==> chain[i] != chain[j]
    ensures |FreeEntries(FreedFat(view, chain))| == |FreeEntries(view)| + |chain|
  {
    var s := set i | 0 <= i < |chain| :: chain[i];
    DistinctSize(chain);
    assert FreeEntries(FreedFat(view, chain)) == FreeEntries(view) + s;
    assert FreeEntries(view) !! s;
  }

  lemma {:induction false} NoneFree(view: seq<nat>)
    requires forall x :: 2 <= x < |view| ==> view[x] != 0
    ensures FreeEntries(view) == {}
  {
  }

  class Table {
    const kind: Kind
    const total: nat
    /** The FAT copies, as raw entries. */
    var copies: seq<seq<nat>>
    var allocHint: nat
    /** The open stream's first and last cluster. */
    var wsFirst: nat
    var wsPrev: nat
    /** Whose clusters are whose, and the table as it was when the stream was opened. */
    ghost var own: Owners
    ghost var at: Places
    ghost var atOpen: seq<nat>

    /** A freshly formatted table: `sectors` sectors in each of n copies, nothing allocated. */
    constructor Formatted(kind: Kind, sectors: nat, n: nat)
      requires n > 0 && sectors * PerSector(kind) <= Last(kind)
      ensures Ready() && this.kind == kind && total == sectors * PerSector(kind) && |copies| == n && own == map[]
        && wsFirst == 0
    {
      var blank := seq(sectors * PerSector(kind), _ => 0);
      this.kind, this.total := kind, sectors * PerSector(kind);
      copies := seq(n, _ => blank);
      allocHint, wsFirst, wsPrev := 0, 0, 0;
      own, at, atOpen := map[], map[], [];
    }

    ghost predicate Valid()
      reads this
    {
      && copies != [] && total % PerSector(kind) == 0
      && (forall f :: 0 <= f < |copies| ==> copies[f] == copies[0])
      && |copies[0]| == total && TableOk(kind, copies[0])
    }

    /** Where each cluster leads. */
    ghost function Chains(): (v: seq<nat>)
      reads this
      requires copies != []
    {
      View(kind, copies[0])
    }

    /** fat_next_cluster: the next cluster, 0 at the end of a chain. */
    method NextCluster(c: nat) returns (n: nat)
      requires Valid() && c < total
      ensures n == if Chains()[c] == EOC_WRITE then 0 else Chains()[c]
    {
      var e := Value(kind, copies[0][c]);
      n := if e >= Last(kind) then 0 else e;
    }

    /** fat_write_fat_entry: read the entry's sector of the first copy, change the entry, and write the
        sector to every copy. */
    method WriteEntry(c: nat, v: nat)
      requires Valid() && c < total && v < (if kind.Fat16? then TWO16 else TOP)
      modifies this`copies
      ensures Valid() && |copies| == |old(copies)|
        && copies[0] == old(copies)[0][c := WithValue(kind, old(copies)[0][c], v)]
    {
      hide SectorOf, PerSector;
      ValueWritten(kind, copies[0][c], v);
      var n := PerSector(kind);
      var sn := SectorOf(c, n);
      SectorInside(c, n, total);
      var at: nat := c - sn;
      var sec := copies[0][sn..sn + n];
      SectorPatched(copies[0], sn, n, at, WithValue(kind, copies[0][c], v));
      WriteSector(sn, sec[at := WithValue(kind, sec[at], v)]);
    }

    /** Write a sector to every copy. */
    method WriteSector(sn: nat, sec: seq<nat>)
      requires copies != [] && (forall f :: 0 <= f < |copies| ==> copies[f] == copies[0]) && sn + |sec| <= |copies[0]|
      modifies this`copies
      ensures |copies| == |old(copies)| && forall f :: 0 <= f < |copies| ==>
        copies[f] == old(copies)[0][..sn] + sec + old(copies)[0][sn + |sec|..]
    {
      ghost var fat := copies[0];
      var f := 0;
      while f < |copies|
        invariant 0 <= f <= |copies| == |old(copies)|
        invariant forall g :: f <= g < |copies| ==> copies[g] == fat
        invariant forall g :: 0 <= g < f ==> copies[g] == fat[..sn] + sec + fat[sn + |sec|..]
      {
        copies := copies[f := copies[f][..sn] + sec + copies[f][sn + |sec|..]];
        f := f + 1;
      }
    }

    /** fat_alloc_cluster: two passes over the table, from the hint to the end and from the start to
        the hint. 0 means no entry is free. */
    method AllocCluster() returns (r: nat)
      requires Valid()
      modifies this`copies, this`allocHint
      ensures Valid() && |copies| == |old(copies)|
      ensures r == 0 ==> copies == old(copies) && forall c :: 2 <= c < total ==> Chains()[c] != 0
      ensures r != 0 ==>
        && 2 <= r < total && old(Chains())[r] == 0 && allocHint == r + 1
        && copies[0] == old(copies)[0][r := WithValue(kind, old(copies)[0][r], Last(kind))]
      ensures r != 0 ==>
        var start := if 2 <= old(allocHint) < total then old(allocHint) else 2;
        if r >= start then forall c :: start <= c < r ==> old(Chains())[c] != 0
        else forall c :: 2 <= c < r || start <= c < total ==> old(Chains())[c] != 0
    {
      var start := if 2 <= allocHint < total then allocHint else 2;
      var pass := 0;
      while pass < 2
        invariant 0 <= pass <= 2 && copies == old(copies)
        invariant pass >= 1 ==> forall c :: start <= c < total ==> Chains()[c] != 0
        invariant pass == 2 ==> forall c :: 2 <= c < total ==> Chains()[c] != 0
      {
        var c := if pass == 1 then 2 else start;
        var end := if pass == 1 then start else total;
        ghost var begin := c;
        while c < end
          invariant begin <= c && (c <= end || c == begin) && copies == old(copies)
          invariant forall x :: begin <= x < c ==> Chains()[x] != 0
        {
          if Value(kind, copies[0][c]) == 0 {
            WriteEntry(c, Last(kind));
            allocHint := c + 1;
            return c;
          }
          c := c + 1;
        }
        pass := pass + 1;
      }
      return 0;
    }

    /** fat_free_chain: follow the links, clearing each before moving on. On any table whose links stay
        in range, cyclic ones included, this ends: each step clears an entry in use, or is the last. */
    method FreeChain(first: nat)
      requires Valid() && LinksIn(Chains()) && first < total
      modifies this`copies
      ensures Valid() && LinksIn(Chains()) && |copies| == |old(copies)|
      ensures copies[0] == FreeAll(kind, old(copies)[0], first)
    {
      hide View, InUse, WithValue, RawOk;
      var cluster: nat := first;
      ghost var result := FreeAll(kind, copies[0], first);
      while cluster != 0 && cluster < Last(kind)
        invariant Valid() && LinksIn(Chains()) && cluster < total && |copies| == |old(copies)|
        invariant FreeAll(kind, copies[0], cluster) == result
        decreases InUse(Chains()), cluster != 0
      {
        cluster := FreeOne(cluster);
      }
    }

    /** Read a link and clear it. */
    method FreeOne(cluster: nat) returns (next: nat)
      requires Valid() && LinksIn(Chains()) && 0 < cluster < total
      modifies this`copies
      ensures Valid() && LinksIn(Chains()) && |copies| == |old(copies)| && next < total
      ensures FreeAll(kind, copies[0], next) == FreeAll(kind, old(copies)[0], cluster)
      ensures InUse(Chains()) < InUse(old(Chains())) || (InUse(Chains()) == InUse(old(Chains())) && next == 0)
    {
      hide InUse, View;
      next := NextCluster(cluster);
      ClearStep(kind, copies[0], cluster);
      WriteEntry(cluster, 0);
    }

    // ---- Chains with owners -------------------------------------------------------------------------

    /** All copies agree, and every entry in use belongs to exactly one chain. */
    ghost predicate Ready()
      reads this
    {
      Valid() && LinksIn(Chains()) && Chained(Chains(), own, at)
    }

    /** Start a chain. */
    method NewChain() returns (c: nat)
      requires Ready()
      modifies this`copies, this`allocHint, this`own, this`at
      ensures Ready() && |copies| == |old(copies)|
      ensures c == 0 ==>
        && copies == old(copies) && own == old(own) && at == old(at)
        && forall x ::
          2 <= x < total
          ==> Chains()[x] != 0
      ensures c != 0 ==> 2 <= c < total && c !in old(own) && old(Chains())[c] == 0
      ensures c != 0 ==> Chains() == old(Chains())[c := EOC_WRITE]
      ensures c != 0 ==>
        && own == old(own)[c := Owner([c], false)]
        && copies[0] == old(copies)[0][c := WithValue(kind, old(copies)[0][c], Last(kind))]
    {
      hide Chained, WithValue;
      ghost var raw, view := copies[0], Chains();
      c := AllocCluster();
      if c != 0 {
        EndValue(kind, raw[c]);
        ViewUpdate(kind, raw, c, WithValue(kind, raw[c], Last(kind)));
        ChainedNew(view, own, at, c);
        own, at := own[c := Owner([c], false)], at[c := (c, 0)];
      }
    }

    /** Add a cluster behind the last one of a chain. */
    method ExtendChain(last: nat, ghost k: nat) returns (c: nat)
      requires Ready() && k in own && own[k].chain != [] && last == own[k].chain[|own[k].chain| - 1]
      modifies this`copies, this`allocHint, this`own, this`at
      ensures Ready() && |copies| == |old(copies)|
      ensures c == 0 ==>
        && copies == old(copies) && own == old(own) && at == old(at)
        && forall x ::
          2 <= x < total
          ==> Chains()[x] != 0
      ensures c != 0 ==> 2 <= c < total && c !in old(own) && old(Chains())[c] == 0 && last < total && last != c
      ensures c != 0 ==> Chains() == old(Chains())[c := EOC_WRITE][last := c]
      ensures c != 0 ==> own == old(own)[k := old(own)[k].(chain := old(own)[k].chain + [c])]
      ensures c != 0 ==>
        var mid := old(copies)[0][c := WithValue(kind, old(copies)[0][c], Last(kind))];
        copies[0] == mid[last := WithValue(kind, mid[last], c)]
    {
      hide Chained, WithValue;
      ghost var raw, view := copies[0], Chains();
      c := AllocCluster();
      if c != 0 {
        EndValue(kind, raw[c]);
        ViewUpdate(kind, raw, c, WithValue(kind, raw[c], Last(kind)));
        NotFirst(view, own, at, c);
        ChainedExtend(view, own, at, k, c);
        ghost var mid := copies[0];
        WriteEntry(last, c);
        LinkValue(kind, mid[last], c, total);
        ViewUpdate(kind, mid, last, WithValue(kind, mid[last], c));
        own, at := own[k := own[k].(chain := own[k].chain + [c])], at[c := (k, |own[k].chain|)];
      }
    }

    /** Give a chain back: exactly its entries become free, whatever is around them. */
    method ReleaseChain(first: nat)
      requires Ready() && first in own
      modifies this`copies, this`own, this`at
      ensures Ready() && |copies| == |old(copies)| && own == old(own) - {first}
      ensures copies[0] == ClearedAt(kind, old(copies)[0], old(own)[first].chain)
      ensures Chains() == FreedFat(old(Chains()), old(own)[first].chain)
    {
      hide Chained, WithValue, ClearedAt;
      ghost var raw, view, chain := copies[0], Chains(), own[first].chain;
      OwnedChain(view, own, at, first);
      FreeAllChain(kind, raw, chain);
      FreeChain(first);
      ViewCleared(kind, raw, chain);
      ChainedFree(view, own, at, first);
      own, at := own - {first}, at - (set c | c in chain);
    }

    // ---- The stream -----------------------------------------------------------------------------------

    /** The table is the one at opening plus the stream's chain on entries that were free. */
    ghost predicate StreamOk()
      reads this
      requires copies != []
    {
      if wsFirst == 0 then wsPrev == 0 && copies[0] == atOpen
      else
        && wsFirst in own && own[wsFirst].chain != [] && wsPrev == own[wsFirst].chain[|own[wsFirst].chain| - 1]
        && ClearedAt(kind, copies[0], own[wsFirst].chain) == atOpen
    }

    /** The stream's first and last cluster are those of a chain. */
    ghost predicate StreamChain()
      reads this
    {
      if wsFirst == 0 then wsPrev == 0
      else wsFirst in own && own[wsFirst].chain != [] && wsPrev == own[wsFirst].chain[|own[wsFirst].chain| - 1]
    }

    method StreamOpen()
      requires Ready()
      modifies this`wsFirst, this`wsPrev, this`atOpen
      ensures Ready() && StreamOk() && StreamChain() && atOpen == copies[0] && copies == old(copies) && wsFirst == 0
    {
      hide Chained, LinksIn;
      wsFirst, wsPrev, atOpen := 0, 0, copies[0];
    }

    /** The table's part in fat_ws_flush_cluster: one more cluster for the stream. */
    method StreamFlush() returns (ok: bool)
      requires Ready() && StreamChain()
      modifies this`copies, this`allocHint, this`own, this`at, this`wsFirst, this`wsPrev
      ensures Ready() && StreamChain() && (old(StreamOk()) ==> StreamOk()) && |copies| == |old(copies)|
      ensures !ok ==>
        && copies == old(copies) && own == old(own) && at == old(at) && wsFirst == old(wsFirst)
        && wsPrev == old(wsPrev)
      ensures !ok ==> forall x :: 2 <= x < total ==> Chains()[x] != 0
      ensures ok ==> wsFirst != 0 && |FreeEntries(Chains())| == |FreeEntries(old(Chains()))| - 1
      ensures ok && old(wsFirst) == 0 ==>
        && wsFirst !in old(own) && 2 <= wsFirst
        && own == old(own)[wsFirst := Owner([wsFirst], false)]
      ensures ok && old(wsFirst) != 0 ==>
        && wsFirst == old(wsFirst) && wsPrev !in old(own)
        && own == old(own)[wsFirst := old(own)[wsFirst].(chain := old(own)[wsFirst].chain + [wsPrev])]
    {
      hide Chained, WithValue, ClearedAt, View, FreeEntries;
      ghost var raw, view := copies[0], Chains();
      var c;
      if wsPrev != 0 {
        ghost var chain := own[wsFirst].chain;
        OwnedChain(view, own, at, wsFirst);
        c := ExtendChain(wsPrev, wsFirst);
        if c != 0 {
          ExtendCleared(kind, raw, chain, wsPrev, c);
          FreeTaken(view, c);
          FreeLinked(view[c := EOC_WRITE], wsPrev, c);
        }
      } else {
        StreamEmpty();
        c := NewChain();
        if c != 0 {
          NewCleared(kind, raw, c);
          FreeTaken(view, c);
          wsFirst := c;
        }
      }
      ok := c != 0;
      if ok {
        wsPrev := c;
      }
    }

    ghost method StreamEmpty()
      requires Ready() && StreamChain() && wsPrev == 0
      ensures wsFirst == 0
    {
      hide LinksIn, View;
      if wsFirst != 0 {
        OwnedChain(Chains(), own, at, wsFirst);
      }
    }

    /** Abandon the stream: when nothing else has happened since it was opened, every FAT copy is byte for
        byte as it was then. */
    method StreamAbort()
      requires Ready() && StreamChain()
      modifies this`copies, this`own, this`at, this`wsFirst, this`wsPrev
      ensures Ready() && StreamChain() && wsFirst == 0 && |copies| == |old(copies)| && own == old(own) - {old(wsFirst)}
      ensures old(wsFirst) == 0 ==> copies == old(copies) && own == old(own) && at == old(at)
      ensures old(StreamOk()) ==> forall f :: 0 <= f < |copies| ==> copies[f] == old(atOpen)
    {
      hide Chained, ClearedAt, View;
      if wsFirst != 0 {
        ReleaseChain(wsFirst);
      } else {
        NoZeroOwner(Chains(), own, at);
      }
      wsFirst, wsPrev := 0, 0;
    }

    /** Open, n clusters' worth of appends, abort. The table runs full when fewer entries are free. */
    method StreamRoundTrip(n: nat) returns (full: bool)
      requires Ready()
      modifies this
      ensures Ready() && copies == old(copies)
      ensures full <==> n > |FreeEntries(old(Chains()))|
    {
      hide Chained, ClearedAt, View, LinksIn;
      StreamOpen();
      ghost var count, free := |copies|, |FreeEntries(Chains())|;
      var i := 0;
      full := false;
      while i < n && !full
        invariant Ready() && StreamOk() && StreamChain() && atOpen == old(copies)[0] && |copies| == count
        invariant 0 <= i <= n && if full then i > free else |FreeEntries(Chains())| == free - i
      {
        var ok := StreamFlush();
        if !ok {
          NoneFree(Chains());
        }
        full := !ok;
        i := i + 1;
      }
      StreamAbort();
      assert copies == old(copies);
    }
  }

  lemma {:induction false} EndValue(kind: Kind, raw: nat)
    requires RawOk(kind, raw)
    ensures Norm(kind, Value(kind, WithValue(kind, raw, Last(kind)))) == EOC_WRITE
  {
    ValueWritten(kind, raw, Last(kind));
  }

  /** A link to a cluster reads back as that link exactly when the cluster's number lies below the end marks. */
  lemma {:induction false} LinkExact(kind: Kind, raw: nat, c: nat)
    requires RawOk(kind, raw) && c < (if kind.Fat16? then TWO16 else TOP)
    ensures Norm(kind, Value(kind, WithValue(kind, raw, c))) == c <==> c < Last(kind)
  {
    ValueWritten(kind, raw, c);
  }

  lemma {:induction false} LinkValue(kind: Kind, raw: nat, c: nat, total: nat)
    requires RawOk(kind, raw) && c < total <= Last(kind)
    ensures Norm(kind, Value(kind, WithValue(kind, raw, c))) == c
  {
    ValueWritten(kind, raw, c);
  }

  lemma {:induction false} NoZeroOwner(view: seq<nat>, own: Owners, at: Places)
    requires Chained(view, own, at)
    ensures forall k <- own :: 2 <= k
  {
    forall k | k in own
      ensures 2 <= k
    {
      assert OwnerOk(view, own[k]) && own[k].chain[0] == k;
    }
  }

  lemma {:induction false} OwnedChain(view: seq<nat>, own: Owners, at: Places, k: nat)
    requires Chained(view, own, at) && k in own && LinksIn(view) && |view| <= 0x0FFF_FFF8
    ensures IsChain(view, own[k].chain) && own[k].chain[0] == k && k >= 2 && k < |view|
    ensures own[k].chain[|own[k].chain| - 1] >= 2
  {
    var chain := own[k].chain;
    assert OwnerOk(view, own[k]);
    forall i, j | 0 <= i < j < |chain|
      ensures chain[i] != chain[j]
    {
      assert at[chain[i]] == (k, i) && at[chain[j]] == (k, j);
    }
  }

  lemma {:induction false} ViewCleared(kind: Kind, fat: seq<nat>, chain: seq<nat>)
    requires TableOk(kind, fat)
    ensures View(kind, ClearedAt(kind, fat, chain)) == FreedFat(View(kind, fat), chain)
  {
    forall c | 0 <= c < |fat|
      ensures Norm(kind, Value(kind, WithValue(kind, fat[c], 0))) == 0
    {
      ValueWritten(kind, fat[c], 0);
    }
    hide WithValue, Value;
  }

  /** Taking a free entry and clearing it again restores the table. */
  lemma {:induction false} NewCleared(kind: Kind, fat: seq<nat>, c: nat)
    requires TableOk(kind, fat) && c < |fat| && View(kind, fat)[c] == 0
    ensures ClearedAt(kind, fat[c := WithValue(kind, fat[c], Last(kind))], [c]) == fat
  {
    FreeRaw(kind, fat[c], Last(kind));
    hide WithValue;
  }

  lemma {:induction false} FreeRaw(kind: Kind, raw: nat, v: nat)
    requires RawOk(kind, raw) && Norm(kind, Value(kind, raw)) == 0 && v < (if kind.Fat16? then TWO16 else TOP)
    ensures WithValue(kind, WithValue(kind, raw, v), 0) == raw
  {
    ValueRestored(kind, raw, v);
  }

  lemma {:induction false} TwiceWritten(kind: Kind, raw: nat, v: nat)
    requires RawOk(kind, raw) && v < (if kind.Fat16? then TWO16 else TOP)
    ensures WithValue(kind, WithValue(kind, raw, v), 0) == WithValue(kind, raw, 0)
  {
  }

  /** The same when a chain grows by one entry. */
  lemma {:induction false} ExtendCleared(kind: Kind, fat: seq<nat>, chain: seq<nat>, last: nat, c: nat)
    requires TableOk(kind, fat) && c < |fat| && last < |fat| && last != c && last in chain && View(kind, fat)[c] == 0
      && |fat| <= 0x0FFF_FFF8
    ensures
      var mid := fat[c := WithValue(kind, fat[c], Last(kind))];
      ClearedAt(kind, mid[last := WithValue(kind, mid[last], c)], chain + [c]) == ClearedAt(kind, fat, chain)
  {
    FreeRaw(kind, fat[c], Last(kind));
    TwiceWritten(kind, fat[last], c);
    TwiceWritten(kind, fat[c], Last(kind));
    if c in chain {
      ClearedFree(kind, fat[c]);
    }
    hide WithValue, View;
  }

  lemma {:induction false} ClearedFree(kind: Kind, raw: nat)
    requires RawOk(kind, raw) && Norm(kind, Value(kind, raw)) == 0
    ensures WithValue(kind, raw, 0) == raw
  {
  }

  /** Replacing a sector in which one entry has changed changes that entry. */
  lemma {:induction false} SectorPatched(fat: seq<nat>, sn: nat, n: nat, at: nat, v: nat)
    requires sn + n <= |fat| && at < n
    ensures fat[..sn] + fat[sn..sn + n][at := v] + fat[sn + n..] == fat[sn + at := v]
  {
    var sec := fat[sn..sn + n];
    assert fat == fat[..sn] + sec + fat[sn + n..];
  }

  /** The first entry of the sector that holds entry c. */
  function SectorOf(c: nat, n: nat): nat
    requires n > 0
  {
    c / n * n
  }

  lemma {:induction false} SectorInside(c: nat, n: nat, total: nat)
    requires n > 0 && total % n == 0 && c < total
    ensures SectorOf(c, n) <= c < SectorOf(c, n) + n <= total
  {
    var q, t := c / n, total / n;
    assert c == n * q + c % n && total == n * t;
    if q >= t {
      MulAtLeastMul(t, q, n);
    }
    MulAtLeastMul(q + 1, t, n);
  }
}
