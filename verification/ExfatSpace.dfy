/** Cluster space: the FAT, the allocation bitmap, the cluster heap, and who owns which cluster. */
module ExfatSpace {
  import opened Bytes
  import opened ExfatEntrySet
  import opened ExfatScan

  /** FAT values from here on end a chain; the driver itself writes only EOC_WRITE. */
  const EOC: nat := 0xFFFF_FFF8
  const EOC_WRITE: nat := 0xFFFF_FFFF
  const MAX_CLUSTERS: nat := 0x1000_0000

  /** Volume geometry as mounted: sectors per cluster (a power of two), clusters, root. `system` holds the
      clusters of the allocation bitmap and the up-case table. */
  datatype Geo = Geo(spc: nat, count: nat, root: nat, system: set<nat>) {
    /** Cluster numbers run from 2 to Total() - 1. */
    function Total(): nat { count + 2 }
    function ClusBytes(): nat { 512 * spc }
    function Slots(): nat { 16 * spc }

    ghost predicate Valid() {
      && 1 <= spc <= 0x1_0000 && TWO32 % ClusBytes() == 0 && Total() < MAX_CLUSTERS
      && 2 <= root < Total() && root !in system
      && forall c <- system :: 2 <= c < Total()
    }
  }

  /** The device as the driver addresses it: FAT entry, bitmap bit and heap bytes by cluster. */
  datatype Disk = Disk(fat: seq<nat>, bits: seq<bool>, heap: seq<seq<Byte>>)

  ghost predicate DiskOk(geo: Geo, d: Disk) {
    && |d.fat| == |d.bits| == |d.heap| == geo.Total()
    && (forall c :: 0 <= c < |d.fat| ==> d.fat[c] < TWO32)
    && (forall c :: 0 <= c < |d.heap| ==> |d.heap[c]| == geo.ClusBytes())
  }

  // ---- Ownership -----------------------------------------------------------

  /** The clusters of one file, directory or open stream, in order. */
  datatype Owner = Owner(chain: seq<nat>, contig: bool)

  /** Owners are named by their first cluster. `at` gives the one owner and position of a cluster. */
  type Owners = map<nat, Owner>
  type Places = map<nat, (nat, nat)>

  ghost predicate Linked(fat: seq<nat>, chain: seq<nat>)
    requires forall i :: 0 <= i < |chain| ==> chain[i] < |fat|
  {
    && chain != []
    && (forall i :: 0 <= i < |chain| - 1 ==> fat[chain[i]] == chain[i + 1])
    && fat[chain[|chain| - 1]] >= EOC
  }

  ghost predicate OwnerOk(fat: seq<nat>, o: Owner) {
    && o.chain != []
    && (forall i :: 0 <= i < |o.chain| ==> 2 <= o.chain[i] < |fat|)
    && if o.contig then forall i :: 0 <= i < |o.chain| ==> o.chain[i] == o.chain[0] + i
       else Linked(fat, o.chain)
  }

  ghost predicate Placed(own: Owners, at: Places) {
    && (forall k, i :: k in own && 0 <= i < |own[k].chain| ==>
          own[k].chain[i] in at && at[own[k].chain[i]] == (k, i))
    && (forall c <- at ::
          at[c].0 in own && at[c].1 < |own[at[c].0].chain| && own[at[c].0].chain[at[c].1] == c)
  }

  ghost predicate OwnersOk(fat: seq<nat>, own: Owners) {
    forall k <- own :: OwnerOk(fat, own[k]) && own[k].chain[0] == k
  }

  /** A bitmap bit is set exactly for the system region and the placed clusters. */
  ghost predicate Charted(geo: Geo, bits: seq<bool>, at: Places)
    requires |bits| == geo.Total()
  {
    && (forall c <- at :: 2 <= c < geo.Total() && c !in geo.system)
    && (forall c :: 2 <= c < geo.Total() ==> (bits[c] <==> c in geo.system || c in at))
  }

  /** A bitmap bit is set exactly when the cluster belongs to the system region or to an owner; the
      map `at` makes that owner, and the position in its chain, unique. */
  ghost predicate SpaceOk(geo: Geo, d: Disk, own: Owners, at: Places) {
    DiskOk(geo, d) && OwnersOk(d.fat, own) && Placed(own, at) && Charted(geo, d.bits, at)
  }

  /** Two places are the same cluster only if they are the same place. */
  lemma {:induction false} OneOwner(geo: Geo, d: Disk, own: Owners, at: Places, k: nat, i: nat, l: nat, j: nat)
    requires SpaceOk(geo, d, own, at)
    requires k in own && l in own && i < |own[k].chain| && j < |own[l].chain|
    requires own[k].chain[i] == own[l].chain[j]
    ensures k == l && i == j
  {
    assert at[own[k].chain[i]] == (k, i) && at[own[l].chain[j]] == (l, j);
  }

  lemma {:induction false} DistinctBound(chain: seq<nat>, n: nat)
    requires forall i :: 0 <= i < |chain| ==> chain[i] < n
    requires forall i, j :: 0 <= i < j < |chain| ==> chain[i] != chain[j]
    ensures |chain| <= n
  {
    var elems := set i | 0 <= i < |chain| :: chain[i];
    DistinctSize(chain);
    BelowSize(n);
    Subset(elems, Below(n));
  }

  /** The numbers less than n. */
  function Below(n: nat): (s: set<nat>)
    ensures forall x :: x in s <==> 0 <= x < n
  {
    if n == 0 then {} else Below(n - 1) + {n - 1}
  }

  lemma {:induction false} BelowSize(n: nat)
    ensures |Below(n)| == n
  {
    if n > 0 {
      BelowSize(n - 1);
    }
  }

  lemma {:induction false} Subset(a: set<nat>, b: set<nat>)
    requires a <= b
    ensures |a| <= |b|
  {
    assert b == a + (b - a);
  }

  lemma {:induction false} DistinctSize(chain: seq<nat>)
    requires forall i, j :: 0 <= i < j < |chain| ==> chain[i] != chain[j]
    ensures |set i | 0 <= i < |chain| :: chain[i]| == |chain|
  {
    if chain != [] {
      var rest := chain[..|chain| - 1];
      DistinctSize(rest);
      var a, b := set i | 0 <= i < |chain| :: chain[i], set i | 0 <= i < |rest| :: rest[i];
      assert a == b + {chain[|chain| - 1]};
    }
  }

  /** No chain is longer than the volume, so the walkers' length guard never fires. */
  lemma {:induction false} ChainBound(geo: Geo, d: Disk, own: Owners, at: Places, k: nat)
    requires SpaceOk(geo, d, own, at) && k in own && geo.Valid()
    ensures |own[k].chain| <= geo.Total() <= MAX_CLUSTERS
  {
    var chain := own[k].chain;
    forall i, j | 0 <= i < j < |chain|
      ensures chain[i] != chain[j]
    {
      assert at[chain[i]] == (k, i) && at[chain[j]] == (k, j);
    }
    DistinctBound(chain, geo.Total());
  }

  // ---- Allocation, linking, release -----------------------------------------

  /** Writing the FAT entry of a cluster outside an owner's chain leaves that owner alone. */
  lemma {:induction false} Unrelated(own: Owners, at: Places, fat: seq<nat>, fat': seq<nat>, k: nat, c: nat)
    requires Placed(own, at) && k in own && OwnerOk(fat, own[k])
    requires |fat'| == |fat| && forall i :: 0 <= i < |fat| && i != c ==> fat'[i] == fat[i]
    requires c !in at || at[c].0 != k
    ensures OwnerOk(fat', own[k])
  {
    var chain := own[k].chain;
    forall i | 0 <= i < |chain|
      ensures fat'[chain[i]] == fat[chain[i]]
    {
      assert chain[i] in at && at[chain[i]] == (k, i);
    }
  }

  lemma {:induction false} FreeIsUnowned(geo: Geo, d: Disk, own: Owners, at: Places, c: nat)
    requires SpaceOk(geo, d, own, at) && 2 <= c < geo.Total() && !d.bits[c]
    ensures c !in at && c !in own && c !in geo.system
  {
  }

  lemma {:induction false} ChartedSet(geo: Geo, bits: seq<bool>, at: Places, c: nat, p: (nat, nat))
    requires |bits| == geo.Total() && Charted(geo, bits, at) && 2 <= c < geo.Total() && !bits[c]
    ensures Charted(geo, bits[c := true], at[c := p])
  {
  }

  /** A free cluster becomes a chain of its own. */
  lemma {:induction false} SpaceNew(geo: Geo, d: Disk, own: Owners, at: Places, c: nat)
    requires SpaceOk(geo, d, own, at) && 2 <= c < geo.Total() && !d.bits[c]
    ensures c !in own && c !in at
    ensures
      SpaceOk(geo, d.(fat := d.fat[c := EOC_WRITE], bits := d.bits[c := true]),
              own[c := Owner([c], false)], at[c := (c, 0)])
  {
    hide Charted, Placed, OwnersOk;
    FreeIsUnowned(geo, d, own, at, c);
    ChartedSet(geo, d.bits, at, c, (c, 0));
    PlacedNew(own, at, c);
    OwnersNew(own, at, d.fat, c);
  }

  lemma {:induction false} PlacedNew(own: Owners, at: Places, c: nat)
    requires Placed(own, at) && c !in at && c !in own
    ensures Placed(own[c := Owner([c], false)], at[c := (c, 0)])
  {
  }

  lemma {:induction false} OwnersNew(own: Owners, at: Places, fat: seq<nat>, c: nat)
    requires OwnersOk(fat, own) && Placed(own, at) && 2 <= c < |fat| && c !in at
    ensures OwnersOk(fat[c := EOC_WRITE], own[c := Owner([c], false)])
  {
    var own', fat' := own[c := Owner([c], false)], fat[c := EOC_WRITE];
    forall k | k in own'
      ensures OwnerOk(fat', own'[k]) && own'[k].chain[0] == k
    {
      if k != c {
        Unrelated(own, at, fat, fat', k, c);
      }
    }
  }

  lemma {:induction false} PlacedExtend(own: Owners, at: Places, k: nat, c: nat)
    requires Placed(own, at) && k in own && c !in at
    ensures Placed(own[k := own[k].(chain := own[k].chain + [c])], at[c := (k, |own[k].chain|)])
  {
  }

  lemma {:induction false} LinkedExtend(own: Owners, at: Places, fat: seq<nat>, fat': seq<nat>, k: nat, c: nat)
    requires Placed(own, at) && k in own && !own[k].contig && OwnerOk(fat, own[k])
    requires 2 <= c < |fat| && c !in at
    requires fat' == fat[c := EOC_WRITE][own[k].chain[|own[k].chain| - 1] := c]
    ensures OwnerOk(fat', own[k].(chain := own[k].chain + [c]))
  {
    var chain := own[k].chain;
    assert forall i :: 0 <= i < |chain| ==> at[chain[i]] == (k, i);
  }

  lemma {:induction false} OwnersExtend(own: Owners, at: Places, fat: seq<nat>, k: nat, c: nat)
    requires OwnersOk(fat, own) && Placed(own, at)
    requires k in own && !own[k].contig && 2 <= c < |fat| && c !in at
    ensures
      var chain := own[k].chain;
      OwnersOk(fat[c := EOC_WRITE][chain[|chain| - 1] := c], own[k := own[k].(chain := chain + [c])])
  {
    var chain := own[k].chain;
    var last := chain[|chain| - 1];
    assert last in at && at[last] == (k, |chain| - 1);
    var mid := fat[c := EOC_WRITE];
    var fat' := mid[last := c];
    var own' := own[k := own[k].(chain := chain + [c])];
    forall l | l in own'
      ensures OwnerOk(fat', own'[l]) && own'[l].chain[0] == l
    {
      if l == k {
        LinkedExtend(own, at, fat, fat', k, c);
      } else {
        Unrelated(own, at, fat, mid, l, c);
        Unrelated(own, at, mid, fat', l, last);
      }
    }
  }

  /** The device after cluster c is allocated and linked behind cluster last. */
  function LinkedIn(d: Disk, last: nat, c: nat): Disk
    requires last < |d.fat| && c < |d.fat| && c < |d.bits|
  {
    d.(fat := d.fat[c := EOC_WRITE][last := c], bits := d.bits[c := true])
  }

  lemma {:induction false} LinkedInDisk(geo: Geo, d: Disk, last: nat, c: nat)
    requires DiskOk(geo, d) && geo.Total() <= MAX_CLUSTERS && last < geo.Total() && c < geo.Total()
    ensures DiskOk(geo, LinkedIn(d, last, c))
  {
  }

  lemma {:induction false} LastInRange(own: Owners, fat: seq<nat>, k: nat)
    requires OwnersOk(fat, own) && k in own
    ensures own[k].chain != [] && 2 <= own[k].chain[|own[k].chain| - 1] < |fat|
  {
  }

  /** A free cluster is allocated and linked behind the last cluster of a chain. */
  lemma {:induction false} SpaceExtend(geo: Geo, d: Disk, own: Owners, at: Places, k: nat, c: nat)
    requires SpaceOk(geo, d, own, at) && geo.Total() <= MAX_CLUSTERS
    requires 2 <= c < geo.Total() && !d.bits[c]
    requires k in own && !own[k].contig
    ensures c !in own && c !in at
    ensures own[k].chain != [] && 2 <= own[k].chain[|own[k].chain| - 1] < |d.fat|
    ensures
      var chain := own[k].chain;
      SpaceOk(geo, LinkedIn(d, chain[|chain| - 1], c),
              own[k := own[k].(chain := chain + [c])], at[c := (k, |chain|)])
  {
    hide Placed, OwnersOk, Charted;
    LastInRange(own, d.fat, k);
    FreeIsUnowned(geo, d, own, at, c);
    ChartedSet(geo, d.bits, at, c, (k, |own[k].chain|));
    OwnersExtend(own, at, d.fat, k, c);
    PlacedExtend(own, at, k, c);
    LinkedInDisk(geo, d, own[k].chain[|own[k].chain| - 1], c);
    hide DiskOk;
  }

  /** The FAT and bitmap after every cluster of a chain has been released. */
  function FreedFat(fat: seq<nat>, chain: seq<nat>): (r: seq<nat>)
    ensures |r| == |fat|
  {
    seq(|fat|, c requires 0 <= c < |fat| => if c in chain then 0 else fat[c])
  }

  function FreedBits(bits: seq<bool>, chain: seq<nat>): (r: seq<bool>)
    ensures |r| == |bits|
  {
    seq(|bits|, c requires 0 <= c < |bits| => if c in chain then false else bits[c])
  }

  function Freed(d: Disk, chain: seq<nat>): Disk {
    d.(fat := FreedFat(d.fat, chain), bits := FreedBits(d.bits, chain))
  }

  lemma {:induction false} PlacedFree(own: Owners, at: Places, k: nat)
    requires Placed(own, at) && k in own
    ensures Placed(own - {k}, at - (set c | c in own[k].chain))
    ensures forall l, i :: l in own && l != k && 0 <= i < |own[l].chain| ==> own[l].chain[i] !in own[k].chain
    ensures forall c <- own[k].chain :: c in at && at[c].0 == k
  {
    var chain := own[k].chain;
    forall c | c in chain
      ensures c in at && at[c].0 == k
    {
      var j :| 0 <= j < |chain| && chain[j] == c;
      assert at[own[k].chain[j]] == (k, j);
    }
    forall l, i | l in own && l != k && 0 <= i < |own[l].chain|
      ensures own[l].chain[i] !in chain
    {
      assert at[own[l].chain[i]] == (l, i);
    }
  }

  lemma {:induction false} OwnersFree(own: Owners, fat: seq<nat>, k: nat)
    requires OwnersOk(fat, own) && k in own
    requires forall l, i :: l in own && l != k && 0 <= i < |own[l].chain| ==> own[l].chain[i] !in own[k].chain
    ensures OwnersOk(FreedFat(fat, own[k].chain), own - {k})
  {
    var own' := own - {k};
    forall l | l in own'
      ensures OwnerOk(FreedFat(fat, own[k].chain), own'[l]) && own'[l].chain[0] == l
    {
      assert OwnerOk(fat, own[l]);
    }
  }

  lemma {:induction false} ChartedFree(geo: Geo, bits: seq<bool>, at: Places, chain: seq<nat>)
    requires |bits| == geo.Total() && Charted(geo, bits, at)
    requires forall c <- chain :: c in at
    ensures Charted(geo, FreedBits(bits, chain), at - (set c | c in chain))
  {
  }

  /** Releasing an owner frees exactly its clusters and leaves every other owner intact. */
  lemma {:induction false} SpaceFree(geo: Geo, d: Disk, own: Owners, at: Places, k: nat)
    requires SpaceOk(geo, d, own, at) && k in own
    ensures
      var chain := own[k].chain;
      SpaceOk(geo, d.(fat := FreedFat(d.fat, chain), bits := FreedBits(d.bits, chain)),
              own - {k}, at - (set c | c in chain))
  {
    hide Placed, OwnersOk, Charted, FreedFat, FreedBits;
    PlacedFree(own, at, k);
    OwnersFree(own, d.fat, k);
    ChartedFree(geo, d.bits, at, own[k].chain);
    FreedDisk(geo, d, own[k].chain);
    hide DiskOk;
  }

  lemma {:induction false} FreedDisk(geo: Geo, d: Disk, chain: seq<nat>)
    requires DiskOk(geo, d)
    ensures DiskOk(geo, d.(fat := FreedFat(d.fat, chain), bits := FreedBits(d.bits, chain)))
  {
  }

  // ---- A run that stays marked ------------------------------------------------------------

  /** The n clusters from c on. */
  predicate IsRun(run: seq<nat>) { run != [] && forall i :: 0 <= i < |run| ==> run[i] == run[0] + i }

  function RunPlaces(run: seq<nat>): Places
    requires run != []
  {
    map c | c in run :: (run[0], if c >= run[0] then c - run[0] else 0)
  }

  lemma {:induction false} FreedAt(d: Disk, chain: seq<nat>)
    ensures Freed(d, chain).heap == d.heap && |Freed(d, chain).bits| == |d.bits| && |Freed(d, chain).fat| == |d.fat|
    ensures forall c :: 0 <= c < |d.bits| ==> Freed(d, chain).bits[c] == (d.bits[c] && c !in chain)
    ensures forall c :: 0 <= c < |d.fat| ==> Freed(d, chain).fat[c] == if c in chain then 0 else d.fat[c]
  {
  }

  lemma {:induction false} RunPlacesKeys(run: seq<nat>)
    requires run != []
    ensures forall c :: c in RunPlaces(run) <==> c in run
  {
  }

  /** A marked run without a name is an owner of its own. */
  lemma {:induction false} SpaceClaim(geo: Geo, y: Disk, own: Owners, at: Places, run: seq<nat>)
    requires DiskOk(geo, y) && SpaceOk(geo, Freed(y, run), own, at) && IsRun(run)
    requires forall c <- run :: 2 <= c < geo.Total() && c !in geo.system && y.bits[c]
    ensures run[0] !in own && forall c <- run :: c !in at
    ensures SpaceOk(geo, y, own[run[0] := Owner(run, true)], at + RunPlaces(run))
  {
    FreedAt(y, run);
    var z := Freed(y, run);
    hide Freed;
    RunUnowned(geo, z, own, at, run);
    ClaimOwners(own, at, z.fat, y.fat, run);
    hide OwnersOk;
    ClaimPlaced(own, at, run);
    hide Placed, RunPlaces;
    ClaimCharted(geo, y, z, at, run);
  }

  lemma {:induction false} ClaimCharted(geo: Geo, y: Disk, z: Disk, at: Places, run: seq<nat>)
    requires |y.bits| == |z.bits| == geo.Total() && run != [] && Charted(geo, z.bits, at)
    requires forall c <- run :: 2 <= c < geo.Total() && c !in geo.system && y.bits[c]
    requires forall c :: 0 <= c < |y.bits| ==> z.bits[c] == (y.bits[c] && c !in run)
    ensures Charted(geo, y.bits, at + RunPlaces(run))
  {
    RunPlacesKeys(run);
    hide RunPlaces;
  }

  lemma {:induction false} RunUnowned(geo: Geo, z: Disk, own: Owners, at: Places, run: seq<nat>)
    requires SpaceOk(geo, z, own, at) && IsRun(run)
    requires forall c <- run :: 2 <= c < geo.Total() && c < |z.bits| && !z.bits[c]
    ensures run[0] !in own && forall c <- run :: c !in at
  {
    hide DiskOk;
    assert run[0] in run;
    assert run[0] !in at;
    if run[0] in own {
      FirstPlaced(z.fat, own, at, run[0]);
    }
  }

  lemma {:induction false} FirstPlaced(fat: seq<nat>, own: Owners, at: Places, k: nat)
    requires OwnersOk(fat, own) && Placed(own, at) && k in own
    ensures k in at
  {
    assert own[k].chain[0] == k;
  }

  lemma {:induction false} ClaimPlaced(own: Owners, at: Places, run: seq<nat>)
    requires Placed(own, at) && IsRun(run) && run[0] !in own && forall c <- run :: c !in at
    ensures Placed(own[run[0] := Owner(run, true)], at + RunPlaces(run))
  {
    var own', at' := own[run[0] := Owner(run, true)], at + RunPlaces(run);
    forall k, i | k in own' && 0 <= i < |own'[k].chain|
      ensures own'[k].chain[i] in at' && at'[own'[k].chain[i]] == (k, i)
    {
      if k == run[0] {
        assert run[i] in RunPlaces(run);
      }
    }
    forall c | c in at'
      ensures at'[c].0 in own' && at'[c].1 < |own'[at'[c].0].chain| && own'[at'[c].0].chain[at'[c].1] == c
    {
      if c in RunPlaces(run) {
        var i :| 0 <= i < |run| && run[i] == c;
      }
    }
  }

  lemma {:induction false} ClaimOwners(own: Owners, at: Places, fat: seq<nat>, fat': seq<nat>, run: seq<nat>)
    requires OwnersOk(fat, own) && Placed(own, at) && |fat'| == |fat| && IsRun(run)
      && forall c <- run ::
        && c !in at && 2 <= c < |fat|
    requires forall c :: 0 <= c < |fat| && c !in run ==> fat'[c] == fat[c]
    ensures OwnersOk(fat', own[run[0] := Owner(run, true)])
  {
    var own' := own[run[0] := Owner(run, true)];
    forall k | k in own'
      ensures OwnerOk(fat', own'[k]) && own'[k].chain[0] == k
    {
      if k != run[0] {
        assert OwnerOk(fat, own[k]);
        assert forall i :: 0 <= i < |own[k].chain| ==> own[k].chain[i] in at;
      } else {
        assert forall i :: 0 <= i < |run| ==> run[i] in run;
      }
    }
  }
}
