/** A FAT directory as its sequence of 32-byte slots: lookup, free runs, creation, deletion and rename. */
module FatDir {
  import opened Bytes
  import opened FatNames
  import opened FatTable
  import ExfatSpace

  const SECTOR_SLOTS: nat := 16
  const SET_MAX: nat := 6
  const FREE_MARK: Byte := 0xE5

  const ZERO_SLOT: Slot :=
    [0, 0, 0, 0, 0, 0, 0, 0, 0, 0, 0, 0, 0, 0, 0, 0, 0, 0, 0, 0, 0, 0, 0, 0, 0, 0, 0, 0, 0, 0, 0, 0]

  // ---- Slots ------------------------------------------------------------------------------------

  predicate Free(d: Slot) { d[0] == 0 || d[0] == FREE_MARK }

  predicate IsLfn(d: Slot) { !Free(d) && d[11] == ATTR_LFN }

  /** A short entry that is not a volume label. */
  predicate IsShort(d: Slot) {
    var attr: nat := d[11];
    !Free(d) && attr / 8 % 2 == 0
  }

  /** What a lookup returns about an entry. */
  datatype Item = Item(first: nat, size: nat, isDir: bool)

  function ItemOf(d: Slot): (it: Item)
    ensures it.first < TWO32 && it.size < TWO32
  {
    var attr: nat := d[11];
    Item(TWO16 * Rd16(d, 20) + Rd16(d, 26), Rd32(d, 28), attr / 16 % 2 == 1)
  }

  /** Does a short entry with the long-name slots acc before it have this name? */
  predicate Matches(d: Slot, acc: seq<Slot>, name: Name) {
    SameName(Parse83(d), name) || (LongName(acc) != [] && SameName(LongName(acc), name))
  }

  // ---- What a directory shows ---------------------------------------------------------------------

  /** Number of long-name slots immediately before position k. */
  function Block(slots: seq<Slot>, k: nat): (n: nat)
    requires k <= |slots|
    ensures n <= k && (forall j :: k - n <= j < k ==> IsLfn(slots[j])) && (n < k ==> !IsLfn(slots[k - n - 1]))
  {
    if k > 0 && IsLfn(slots[k - 1]) then 1 + Block(slots, k - 1) else 0
  }

  /** The slots lookup has collected when it reaches position k: the first five of the block. */
  function AccAt(slots: seq<Slot>, k: nat): (acc: seq<Slot>)
    requires k <= |slots|
    ensures |acc| <= LFN_SLOTS
  {
    var n := Block(slots, k);
    slots[k - n..k - n + if n <= LFN_SLOTS then n else LFN_SLOTS]
  }

  /** Positions before the end mark. */
  predicate Live(slots: seq<Slot>, k: nat)
    requires k < |slots|
  {
    forall j :: 0 <= j <= k ==> slots[j][0] != 0
  }

  /** Position k holds a live entry of this name. */
  predicate Shows(slots: seq<Slot>, k: nat, name: Name) {
    k < |slots| && Live(slots, k) && IsShort(slots[k]) && Matches(slots[k], AccAt(slots, k), name)
  }

  /** The first entry of this name at or after position i. */
  function FoundFrom(slots: seq<Slot>, name: Name, i: nat): (r: Option<nat>)
    requires i <= |slots|
    ensures r.Some? ==>
      && i <= r.value < |slots| && Shows(slots, r.value, name)
      && forall j: nat ::
        i <= j < r.value
        ==> !Shows(slots, j, name)
    ensures r.None? ==> forall j: nat :: i <= j ==> !Shows(slots, j, name)
    decreases |slots| - i
  {
    if i == |slots| then None else if Shows(slots, i, name) then Some(i) else FoundFrom(slots, name, i + 1)
  }

  function Found(slots: seq<Slot>, name: Name): Option<nat> { FoundFrom(slots, name, 0) }

  /** The name leads to an entry with this content. */
  predicate Resolves(slots: seq<Slot>, name: Name, it: Item) {
    var f := Found(slots, name);
    f.Some? && f.value < |slots| && ItemOf(slots[f.value]) == it
  }

  // ---- Well-kept directories ------------------------------------------------------------------------

  /** Only free slots follow the end mark. */
  predicate ZeroTail(slots: seq<Slot>) {
    forall i, j :: 0 <= i < j < |slots| && slots[i][0] == 0 ==> slots[j][0] == 0
  }

  /** Every long-name slot is followed by another one or by an entry. */
  predicate NoOrphans(slots: seq<Slot>) {
    forall i :: 0 <= i < |slots| && IsLfn(slots[i]) ==> i + 1 < |slots| && !Free(slots[i + 1])
  }

  predicate ShortRuns(slots: seq<Slot>) {
    forall k: nat :: k <= |slots| ==> Block(slots, k) <= LFN_SLOTS
  }

  predicate Tidy(slots: seq<Slot>) { ZeroTail(slots) && NoOrphans(slots) && ShortRuns(slots) }

  predicate FreeRun(slots: seq<Slot>, p: nat, need: nat) {
    p + need <= |slots| && forall j :: p <= j < p + need ==> Free(slots[j])
  }

  /** No run of `need` free slots starts before position n. */
  ghost predicate NoFit(slots: seq<Slot>, n: int, need: nat) { forall s: nat :: s < n ==> !FreeRun(slots, s, need) }

  /** Where the search for free slots stands at position i: the last `run` slots are free, nothing fits
      before them, and `term` says whether an end mark has been passed. */
  ghost predicate Scanning(slots: seq<Slot>, i: nat, run: nat, need: nat, term: bool) {
    && run <= i <= |slots| && run < need
    && (forall j :: i - run <= j < i ==> Free(slots[j]))
    && (run < i ==> !Free(slots[i - run - 1]))
    && NoFit(slots, i - run, need)
    && (term <==> exists j :: 0 <= j < i && slots[j][0] == 0)
  }

  lemma {:induction false} ScanStart(slots: seq<Slot>, need: nat)
    requires need > 0
    ensures Scanning(slots, 0, 0, need, false)
  {
  }

  lemma {:induction false} ScanUsed(slots: seq<Slot>, i: nat, run: nat, need: nat, term: bool)
    requires Scanning(slots, i, run, need, term) && i < |slots| && !Free(slots[i])
    ensures Scanning(slots, i + 1, 0, need, term)
  {
    assert NoFit(slots, i + 1, need) by {
      hide Free;
    }
  }

  lemma {:induction false} ScanFree(slots: seq<Slot>, i: nat, run: nat, need: nat, term: bool)
    requires Scanning(slots, i, run, need, term) && i < |slots| && Free(slots[i])
    ensures run + 1 < need ==> Scanning(slots, i + 1, run + 1, need, term || slots[i][0] == 0)
    ensures run <= i
    ensures run + 1 == need ==> FirstFit(slots, i + 1 - need, need)
    ensures run + 1 == need ==>
      Sealed(slots, i + 1) == if (term || slots[i][0] == 0) && i + 1 < |slots| && slots[i + 1][0] != 0
        then slots[i + 1 := ZERO_SLOT] else slots
  {
    hide Free;
  }

  lemma {:induction false} ScanGrown(slots: seq<Slot>, z: seq<Slot>, run: nat, need: nat, term: bool)
    requires Scanning(slots, |slots|, run, need, term)
    ensures Scanning(slots + z, |slots|, run, need, term)
  {
    hide Free, FreeRun;
    var b := slots + z;
    assert forall j :: 0 <= j < |slots| ==> b[j] == slots[j];
    forall s: nat | s < |slots| - run
      ensures !FreeRun(b, s, need)
    {
      NotFreeGrown(slots, z, s, need, |slots| - run - 1);
    }
  }

  lemma {:induction false} NotFreeGrown(a: seq<Slot>, z: seq<Slot>, s: nat, need: nat, i: nat)
    requires !FreeRun(a, s, need) && s <= i < |a| && !Free(a[i])
    ensures !FreeRun(a + z, s, need)
  {
    hide Free;
    var b := a + z;
    assert forall j :: 0 <= j < |a| ==> b[j] == a[j];
  }

  lemma {:induction false} ScanEnd(slots: seq<Slot>, run: nat, need: nat, term: bool)
    requires Scanning(slots, |slots|, run, need, term)
    ensures NoRoom(slots, need)
  {
    hide Free;
  }

  /** The first place where `need` slots in a row are free. */
  predicate FirstFit(slots: seq<Slot>, p: nat, need: nat) {
    FreeRun(slots, p, need) && forall s: nat :: s < p ==> !FreeRun(slots, s, need)
  }

  // ---- Locality ----------------------------------------------------------------------------------------

  lemma {:induction false} BlockPrefix(a: seq<Slot>, b: seq<Slot>, k: nat)
    requires k <= |a| && k <= |b| && a[..k] == b[..k]
    ensures Block(a, k) == Block(b, k) && AccAt(a, k) == AccAt(b, k)
    decreases k
  {
    hide IsLfn, AccAt;
    assert forall j :: 0 <= j < k ==> a[..k][j] == b[..k][j];
    if k > 0 {
      assert a[..k - 1] == a[..k][..k - 1] == b[..k][..k - 1] == b[..k - 1];
      BlockPrefix(a, b, k - 1);
    }
    var n := Block(a, k);
    assert a[k - n..k] == a[..k][k - n..] == b[..k][k - n..] == b[k - n..k];
    AccOfBlock(a, b, k);
  }

  lemma {:induction false} AccOfBlock(a: seq<Slot>, b: seq<Slot>, k: nat)
    requires k <= |a| && k <= |b| && Block(a, k) == Block(b, k) && a[k - Block(a, k)..k] == b[k - Block(a, k)..k]
    ensures AccAt(a, k) == AccAt(b, k)
  {
    hide Block;
    var n := Block(a, k);
    var m := if n <= LFN_SLOTS then n else LFN_SLOTS;
    SliceTake(a, k - n, k, m);
    SliceTake(b, k - n, k, m);
  }

  lemma {:induction false} SliceTake(s: seq<Slot>, lo: nat, hi: nat, m: nat)
    requires lo + m <= hi <= |s|
    ensures s[lo..lo + m] == s[lo..hi][..m]
  {
  }

  lemma {:induction false} BlockAfter(a: seq<Slot>, b: seq<Slot>, e: nat, k: nat)
    requires |a| == |b| && e < k <= |a| && !IsLfn(a[e]) && !IsLfn(b[e])
    requires forall j :: e < j < k ==> a[j] == b[j]
    ensures Block(a, k) == Block(b, k) < k - e && AccAt(a, k) == AccAt(b, k)
    decreases k
  {
    hide IsLfn, AccAt;
    if k > e + 1 {
      BlockAfter(a, b, e, k - 1);
    }
    AccOfBlock(a, b, k);
  }

  lemma {:induction false} LivePrefix(a: seq<Slot>, b: seq<Slot>, k: nat)
    requires k < |a| && k < |b| && a[..k + 1] == b[..k + 1]
    ensures Live(a, k) <==> Live(b, k)
  {
    forall j | 0 <= j <= k
      ensures a[j] == b[j]
    {
      assert a[..k + 1][j] == b[..k + 1][j];
    }
  }

  /** What is shown at a position depends on nothing behind it. */
  lemma {:induction false} ShowsPrefix(a: seq<Slot>, b: seq<Slot>, k: nat, name: Name)
    requires k < |a| && k < |b| && a[..k + 1] == b[..k + 1]
    ensures Shows(a, k, name) <==> Shows(b, k, name)
  {
    hide Live, IsShort, Matches, AccAt;
    assert a[k] == a[..k + 1][k] == b[k];
    assert a[..k] == a[..k + 1][..k] == b[..k];
    LivePrefix(a, b, k);
    BlockPrefix(a, b, k);
  }

  /** Past a position that is no long-name slot, equal slots show the same. */
  lemma {:induction false} ShowsAfter(a: seq<Slot>, b: seq<Slot>, e: nat, k: nat, name: Name)
    requires |a| == |b| && e < k < |a| && !IsLfn(a[e]) && !IsLfn(b[e])
    requires forall j :: e < j <= k ==> a[j] == b[j]
    requires Live(a, k) <==> Live(b, k)
    ensures Shows(a, k, name) <==> Shows(b, k, name)
  {
    hide Live, IsShort, Matches, AccAt, IsLfn;
    BlockAfter(a, b, e, k);
  }

  /** If two directories show the same everywhere, lookups agree. */
  lemma {:induction false} FoundSame(a: seq<Slot>, b: seq<Slot>, name: Name)
    requires forall k: nat :: Shows(a, k, name) <==> Shows(b, k, name)
    ensures Found(a, name) == Found(b, name)
  {
    hide Shows;
    var f, g := Found(a, name), Found(b, name);
    if f.Some? {
      assert Shows(b, f.value, name);
      assert g.Some? && g.value <= f.value;
      assert Shows(a, g.value, name);
    }
  }

  // ---- Growth ------------------------------------------------------------------------------------------

  /** Slots added behind a directory do not change what a name that was found leads to. */
  lemma {:induction false} GrownFound(a: seq<Slot>, tail: seq<Slot>, name: Name)
    requires Found(a, name).Some?
    ensures Found(a + tail, name) == Found(a, name)
  {
    hide Shows;
    var b := a + tail;
    var k := Found(a, name).value;
    forall j: nat | j <= k
      ensures Shows(b, j, name) <==> Shows(a, j, name)
    {
      assert b[..j + 1] == a[..j + 1];
      ShowsPrefix(a, b, j, name);
    }
    var g := Found(b, name);
    assert Shows(b, k, name);
    assert g.Some? && g.value <= k;
  }

  predicate AllZero(z: seq<Slot>) { forall i :: 0 <= i < |z| ==> z[i][0] == 0 }

  /** Empty slots added behind a directory show nothing. */
  lemma {:induction false} ZeroShows(a: seq<Slot>, z: seq<Slot>, k: nat, name: Name)
    requires AllZero(z)
    ensures Shows(a + z, k, name) <==> Shows(a, k, name)
  {
    var b := a + z;
    if k < |a| {
      assert b[..k + 1] == a[..k + 1];
      ShowsPrefix(a, b, k, name);
    } else if k < |b| {
      assert b[k] == z[k - |a|];
    }
  }

  lemma {:induction false} ZeroTidy(a: seq<Slot>, z: seq<Slot>)
    requires Tidy(a) && AllZero(z)
    ensures Tidy(a + z)
  {
    var b := a + z;
    assert forall i :: |a| <= i < |b| ==> b[i] == z[i - |a|];
    forall k: nat | k <= |b|
      ensures Block(b, k) <= LFN_SLOTS
    {
      if k <= |a| {
        assert b[..k] == a[..k];
        BlockPrefix(a, b, k);
      }
    }
  }

  // ---- Writing an entry set ----------------------------------------------------------------------------

  /** The directory with a set of slots written at position p. */
  function Placed(slots: seq<Slot>, p: nat, part: seq<Slot>): (r: seq<Slot>)
    requires p + |part| <= |slots|
    ensures |r| == |slots|
    ensures forall j :: 0 <= j < |slots| ==> r[j] == if p <= j < p + |part| then part[j - p] else slots[j]
  {
    slots[..p] + part + slots[p + |part|..]
  }

  /** Long-name slots followed by one entry. */
  predicate EntryForm(entry: seq<Slot>) {
    && 1 <= |entry| <= SET_MAX
    && (forall i :: 0 <= i < |entry| - 1 ==> IsLfn(entry[i]))
    && IsShort(entry[|entry| - 1])
  }

  lemma {:induction false} BeforeFree(a: seq<Slot>, p: nat)
    requires NoOrphans(a) && p < |a| && Free(a[p])
    ensures Block(a, p) == 0
  {
  }

  /** A place for `need` slots that does not lie behind the end mark. */
  predicate Fit(slots: seq<Slot>, p: nat, need: nat) {
    FreeRun(slots, p, need) && forall j :: 0 <= j < p ==> slots[j][0] != 0
  }

  lemma {:induction false} FirstIsFit(a: seq<Slot>, p: nat, need: nat)
    requires Tidy(a) && FirstFit(a, p, need) && need > 0
    ensures Fit(a, p, need)
  {
    hide NoOrphans, ShortRuns;
    FitBeforeEnd(a, p, need);
  }

  lemma {:induction false} FitBeforeEnd(a: seq<Slot>, p: nat, need: nat)
    requires ZeroTail(a) && FirstFit(a, p, need) && need > 0
    ensures forall j :: 0 <= j < p ==> a[j][0] != 0
  {
    forall j | 0 <= j < p
      ensures a[j][0] != 0
    {
      if a[j][0] == 0 {
        assert FreeRun(a, j, need);
      }
    }
  }

  /** Until its last slot is written, a new set is invisible; then it shows its names, and the others
      show what they did. */
  lemma {:induction false} PlacedShows(a: seq<Slot>, p: nat, entry: seq<Slot>, m: nat, k: nat, name: Name)
    requires Tidy(a) && EntryForm(entry) && FirstFit(a, p, |entry|) && m <= |entry|
    ensures
      var b, e := Placed(a, p, entry[..m]), p + |entry| - 1;
      Shows(b, k, name) <==>
        if m == |entry| && k == e then Matches(entry[m - 1], entry[..m - 1], name) else Shows(a, k, name)
  {
    hide Shows, Live, IsShort, IsLfn, AccAt, Matches, Tidy, EntryForm, FirstFit, Placed, Free;
    FitFree(a, p, |entry|);
    FormLength(entry);
    var b, e := Placed(a, p, entry[..m]), p + |entry| - 1;
    if k < p {
      assert b[..k + 1] == a[..k + 1];
      ShowsPrefix(a, b, k, name);
    } else if k < e || (k == e && m < |entry|) {
      OnlyShort(a, k, name);
      if k - p < m {
        FormLfn(entry, k - p);
        assert b[k] == entry[k - p];
      }
      OnlyShort(b, k, name);
    } else if k == e {
      PlacedEntry(a, p, entry, name);
      assert entry[..m] == entry;
    } else if k < |a| {
      PlacedLive(a, p, entry, m, k);
      FreeNotLfn(a[e]);
      FormLast(entry);
      ShowsAfter(a, b, e, k, name);
    } else {
      Beyond(a, k, name);
      Beyond(b, k, name);
    }
  }

  lemma {:induction false} FitFree(a: seq<Slot>, p: nat, need: nat)
    requires FirstFit(a, p, need)
    ensures p + need <= |a| && forall j :: p <= j < p + need ==> Free(a[j])
  {
    hide Free;
  }

  lemma {:induction false} FreeNotLfn(d: Slot)
    requires Free(d)
    ensures !IsLfn(d)
  {
  }

  lemma {:induction false} FormLast(entry: seq<Slot>)
    requires EntryForm(entry)
    ensures !IsLfn(entry[|entry| - 1])
  {
  }

  lemma {:induction false} PlacedLive(a: seq<Slot>, p: nat, entry: seq<Slot>, m: nat, k: nat)
    requires Tidy(a) && EntryForm(entry) && FreeRun(a, p, |entry|) && m <= |entry| && p + |entry| <= k < |a|
    ensures Live(Placed(a, p, entry[..m]), k) <==> Live(a, k)
  {
    var b := Placed(a, p, entry[..m]);
    assert forall j :: 0 <= j < p ==> b[j] == a[j];
    if z :| p <= z < p + |entry| && a[z][0] == 0 {
      assert a[k][0] == 0 && b[k] == a[k];
    } else {
      assert forall j :: p <= j < p + |entry| ==> a[j][0] != 0 && b[j][0] != 0;
    }
  }

  lemma {:induction false} RunBlock(a: seq<Slot>, p: nat, entry: seq<Slot>, i: nat)
    requires NoOrphans(a) && EntryForm(entry) && FreeRun(a, p, |entry|) && i < |entry|
    ensures
      var b := Placed(a, p, entry);
      Block(b, p + i) == i && AccAt(b, p + i) == entry[..i]
  {
    hide IsLfn, AccAt, EntryForm, Placed;
    var b := Placed(a, p, entry);
    if i == 0 {
      assert a[..p] == b[..p];
      BlockPrefix(a, b, p);
      BeforeFree(a, p);
    } else {
      RunBlock(a, p, entry, i - 1);
      assert b[p + i - 1] == entry[i - 1];
      FormLfn(entry, i - 1);
    }
    FormLength(entry);
    AccShort(b, p + i);
    PlacedSlice(a, p, entry, i);
  }

  lemma {:induction false} PlacedSlice(a: seq<Slot>, p: nat, entry: seq<Slot>, i: nat)
    requires p + |entry| <= |a| && i <= |entry|
    ensures Placed(a, p, entry)[p..p + i] == entry[..i]
  {
  }

  lemma {:induction false} FormLfn(entry: seq<Slot>, i: nat)
    requires EntryForm(entry) && i < |entry| - 1
    ensures IsLfn(entry[i])
  {
    hide IsLfn, IsShort;
  }

  lemma {:induction false} FormLength(entry: seq<Slot>)
    requires EntryForm(entry)
    ensures 1 <= |entry| <= LFN_SLOTS + 1
  {
    hide IsLfn, IsShort;
  }

  lemma {:induction false} AccShort(b: seq<Slot>, k: nat)
    requires k <= |b| && Block(b, k) <= LFN_SLOTS
    ensures AccAt(b, k) == b[k - Block(b, k)..k]
  {
    hide Block;
  }

  lemma {:induction false} PlacedEntry(a: seq<Slot>, p: nat, entry: seq<Slot>, name: Name)
    requires Tidy(a) && EntryForm(entry) && FirstFit(a, p, |entry|)
    ensures
      var n := |entry| - 1;
      Shows(Placed(a, p, entry), p + n, name) <==> Matches(entry[n], entry[..n], name)
  {
    var b, n := Placed(a, p, entry), |entry| - 1;
    RunBlock(a, p, entry, n);
    FitBeforeEnd(a, p, |entry|);
    assert b[p + n] == entry[n];
    assert Live(b, p + n);
  }

  lemma {:induction false} PlacedTidy(a: seq<Slot>, p: nat, entry: seq<Slot>)
    requires Tidy(a) && EntryForm(entry) && Fit(a, p, |entry|)
    ensures Tidy(Placed(a, p, entry))
  {
    hide EntryForm, IsShort, IsLfn, AccAt;
    FormLength(entry);
    var b, e := Placed(a, p, entry), p + |entry| - 1;
    FormLast(entry);
    FreeNotLfn(a[e]);
    PlacedZeroTail(a, p, entry);
    PlacedOrphans(a, p, entry);
    assert NoOrphans(a) && ShortRuns(a);
    hide NoOrphans, ZeroTail;
    assert b[e] == entry[|entry| - 1];
    hide Placed;
    forall k: nat | k <= |b|
      ensures Block(b, k) <= LFN_SLOTS
    {
      if k <= p {
        PlacedPrefix(a, p, entry, k);
        BlockPrefix(a, b, k);
      } else if k <= e {
        RunBlock(a, p, entry, k - p);
      } else {
        BlockAfter(a, b, e, k);
      }
    }
  }

  lemma {:induction false} PlacedPrefix(a: seq<Slot>, p: nat, entry: seq<Slot>, k: nat)
    requires p + |entry| <= |a| && k <= p
    ensures Placed(a, p, entry)[..k] == a[..k]
  {
  }

  lemma {:induction false} PlacedZeroTail(a: seq<Slot>, p: nat, entry: seq<Slot>)
    requires ZeroTail(a) && EntryForm(entry) && Fit(a, p, |entry|)
    ensures ZeroTail(Placed(a, p, entry))
  {
  }

  lemma {:induction false} PlacedOrphans(a: seq<Slot>, p: nat, entry: seq<Slot>)
    requires NoOrphans(a) && EntryForm(entry) && FreeRun(a, p, |entry|)
    ensures NoOrphans(Placed(a, p, entry))
  {
    var b, e := Placed(a, p, entry), p + |entry| - 1;
    BeforeFree(a, p);
    forall i | 0 <= i < |b| && IsLfn(b[i])
      ensures i + 1 < |b| && !Free(b[i + 1])
    {
      if i < p {
        assert a[i] == b[i];
        assert i != p - 1;
      } else if i < e {
        assert b[i + 1] == entry[i + 1 - p];
      }
    }
  }

  // ---- Deleting an entry -------------------------------------------------------------------------------

  function Retired(d: Slot): Slot { d[0 := FREE_MARK] }

  /** The directory with the slots from position f up to position t marked deleted. */
  function Erased(slots: seq<Slot>, f: nat, t: nat): (r: seq<Slot>)
    requires f <= t <= |slots|
    ensures |r| == |slots| && forall j :: 0 <= j < |slots| ==> r[j] == if f <= j < t then Retired(slots[j])
      else slots[j]
  {
    if f == t then slots else Erased(slots, f, t - 1)[t - 1 := Retired(slots[t - 1])]
  }

  /** Deleting an entry slot by slot leaves what every other position shows unchanged throughout, and in
      the end the entry shows nothing. */
  lemma {:induction false} ErasedShows(a: seq<Slot>, k: nat, t: nat, j: nat, name: Name)
    requires k < |a| && IsShort(a[k]) && k - Block(a, k) <= t <= k + 1
    ensures
      var b := Erased(a, k - Block(a, k), t);
      && (j != k ==> (Shows(b, j, name) <==> Shows(a, j, name)))
      && (t == k + 1 ==> !Shows(b, k, name))
  {
    hide Shows, AccAt, Matches, Live, IsShort, Erased, Block, IsLfn;
    var f := k - Block(a, k);
    var b := Erased(a, f, t);
    if t == k + 1 {
      assert b[k] == Retired(a[k]);
      OnlyShort(b, k, name);
    }
    if j < f {
      assert b[..j + 1] == a[..j + 1];
      ShowsPrefix(a, b, j, name);
    } else if j < k {
      OnlyShort(a, j, name);
      OnlyShort(b, j, name);
    } else if j > k && j < |a| {
      ShortNotLfn(a[k]);
      RetiredSlot(a[k]);
      BlockLive(a, k);
      LiveErased(a, b, f, t, j);
      ShowsAfter(a, b, k, j, name);
    } else if j > k {
      Beyond(a, j, name);
      Beyond(b, j, name);
    }
  }

  lemma {:induction false} BlockLive(a: seq<Slot>, k: nat)
    requires k < |a| && IsShort(a[k])
    ensures forall i :: k - Block(a, k) <= i <= k ==> a[i][0] != 0
  {
    hide Block;
  }

  lemma {:induction false} OnlyShort(a: seq<Slot>, j: nat, name: Name)
    requires j < |a| && (IsLfn(a[j]) || Free(a[j]) || exists d: Slot :: a[j] == Retired(d))
    ensures !Shows(a, j, name)
  {
    hide Matches, AccAt, Live;
  }

  lemma {:induction false} RetiredSlot(d: Slot)
    ensures !IsLfn(Retired(d))
  {
  }

  lemma {:induction false} Beyond(a: seq<Slot>, j: nat, name: Name)
    requires j >= |a|
    ensures !Shows(a, j, name)
  {
  }

  lemma {:induction false} LiveErased(a: seq<Slot>, b: seq<Slot>, f: nat, t: nat, j: nat)
    requires f <= t <= |a| == |b| && j < |a|
    requires forall i :: 0 <= i < |a| ==> b[i] == if f <= i < t then Retired(a[i]) else a[i]
    requires forall i :: f <= i < t ==> a[i][0] != 0
    ensures Live(a, j) <==> Live(b, j)
  {
  }

  lemma {:induction false} ErasedTidy(a: seq<Slot>, k: nat, t: nat)
    requires Tidy(a) && k < |a| && Live(a, k) && IsShort(a[k]) && k <= t <= k + 1
    ensures Tidy(Erased(a, k - Block(a, k), t))
  {
    hide Erased, AccAt, IsShort, Live;
    var f := k - Block(a, k);
    var b := Erased(a, f, t);
    ErasedZeroTail(a, b, f, t, k);
    ErasedOrphans(a, b, f, t, k);
    hide NoOrphans, ZeroTail;
    forall q: nat | q <= |b|
      ensures Block(b, q) <= LFN_SLOTS
    {
      if q <= f {
        assert a[..q] == b[..q];
        BlockPrefix(a, b, q);
      } else if q <= k {
        RetiredSlot(a[q - 1]);
        assert b[q - 1] == Retired(a[q - 1]);
      } else {
        ShortNotLfn(a[k]);
        RetiredSlot(a[k]);
        BlockAfter(a, b, k, q);
      }
    }
  }

  lemma {:induction false} ErasedZeroTail(a: seq<Slot>, b: seq<Slot>, f: nat, t: nat, k: nat)
    requires ZeroTail(a) && k < |a| == |b| && Live(a, k) && f <= t <= k + 1
    requires forall j :: 0 <= j < |a| ==> b[j] == if f <= j < t then Retired(a[j]) else a[j]
    ensures ZeroTail(b)
  {
  }

  lemma {:induction false} ErasedOrphans(a: seq<Slot>, b: seq<Slot>, f: nat, t: nat, k: nat)
    requires NoOrphans(a) && k < |a| == |b| && f == k - Block(a, k) && k <= t <= k + 1
    requires forall j :: 0 <= j < |a| ==> b[j] == if f <= j < t then Retired(a[j]) else a[j]
    ensures NoOrphans(b)
  {
    forall i | 0 <= i < |b| && IsLfn(b[i])
      ensures i + 1 < |b| && !Free(b[i + 1])
    {
      assert a[i] == b[i];
      assert i + 1 != f || f == k;
    }
  }

  // ---- Rewriting a short name --------------------------------------------------------------------------

  /** make_83_name into an existing entry. */
  function Named(d: Slot, short: seq<Byte>): Slot
    requires |short| == 11
  {
    short + d[11..]
  }

  lemma {:induction false} NamedShows(a: seq<Slot>, k: nat, d: Slot, j: nat, name: Name)
    requires k < |a| && IsShort(a[k]) && IsShort(d)
    ensures
      var b := a[k := d];
      && Block(b, k) == Block(a, k) && AccAt(b, k) == AccAt(a, k)
      && (j != k ==> (Shows(b, j, name) <==> Shows(a, j, name)))
      && (Live(a, k) ==> (Shows(b, k, name) <==> Matches(d, AccAt(a, k), name)))
  {
    var b := a[k := d];
    assert a[..k] == b[..k];
    BlockPrefix(a, b, k);
    if j < k {
      assert b[..j + 1] == a[..j + 1];
      ShowsPrefix(a, b, j, name);
    } else if k < j < |a| {
      assert forall i :: 0 <= i < |a| ==> (a[i][0] != 0 <==> b[i][0] != 0);
      ShowsAfter(a, b, k, j, name);
    }
  }

  lemma {:induction false} NamedTidy(a: seq<Slot>, k: nat, d: Slot)
    requires Tidy(a) && k < |a| && Live(a, k) && IsShort(a[k]) && IsShort(d)
    ensures Tidy(a[k := d])
  {
    var b := a[k := d];
    forall q: nat | q <= |b|
      ensures Block(b, q) <= LFN_SLOTS
    {
      if q <= k {
        assert a[..q] == b[..q];
        BlockPrefix(a, b, q);
      } else {
        BlockAfter(a, b, k, q);
      }
    }
  }

  // ---- New entry sets -----------------------------------------------------------------------------------

  /** The short entry fat_create_dirent writes. */
  function ShortSlot(short: seq<Byte>, attr: Byte, first: nat, size: nat): (d: Slot)
    requires |short| == 11 && first < TWO32 && size < TWO32
  {
    short + [attr] + seq(8, _ => 0) + Le16(first / TWO16) + seq(4, _ => 0) + Le16(first % TWO16) + Le32(size)
  }

  lemma {:induction false} ShortSlotReads(short: seq<Byte>, attr: Byte, first: nat, size: nat)
    requires |short| == 11 && first < TWO32 && size < TWO32
    ensures
      var d := ShortSlot(short, attr, first, size);
      d[..11] == short && d[11] == attr && ItemOf(d).first == first && ItemOf(d).size == size
  {
    var d := ShortSlot(short, attr, first, size);
    assert d[20..22] == Le16(first / TWO16);
    assert d[26..28] == Le16(first % TWO16);
    assert d[28..32] == Le32(size);
    RdLe16(d, 20, first / TWO16);
    RdLe16(d, 26, first % TWO16);
    RdLe32(d, 28, size);
  }

  /** The slots fat_create_dirent writes for a name: long-name slots unless the name fits 8.3. */
  function EntrySet(name: Name, short: seq<Byte>, attr: Byte, it: Item): (r: seq<Slot>)
    requires |short| == 11 && it.first < TWO32 && it.size < TWO32 && |name| <= LFN_SLOTS * LFN_CHARS
    ensures |r| == 1 + if Is83(name) then 0 else LfnCount(name)
  {
    var n := if Is83(name) then 0 else LfnCount(name);
    LfnRun(name, n, n, Checksum(short)) + [ShortSlot(short, attr, it.first, it.size)]
  }

  /** The name under which lookups find what was created as `name`. */
  function Known(name: Name): Name { if Is83(name) then name else Spelled(name) }

  lemma {:induction false} RunSlots(name: Name, n: nat, j: nat, check: Byte, i: nat)
    requires Ascii(name) && i < j <= n <= LFN_SLOTS
    ensures IsLfn(LfnRun(name, n, j, check)[i])
    decreases j
  {
    hide LfnSlot, Ascii;
    RunHead(name, n, j, check);
    if i == 0 {
      SlotChars(name, n, j, check);
    } else {
      RunSlots(name, n, j - 1, check, i - 1);
    }
  }

  predicate EntryAttr(attr: Byte) {
    var a: nat := attr;
    a / 8 % 2 == 0
  }

  lemma {:induction false} ShortOnly(d: Slot, short: seq<Byte>)
    requires |short| == 11 && d[..11] == short
    ensures Parse83(d) == Parse83(short)
  {
    assert d[..8] == short[..8] && d[8..11] == short[8..11] && d[8] == short[8];
  }

  /** A new entry set has entry form and goes by its known name and its short name, and no other. */
  lemma {:induction false} EntrySetForm(name: Name, short: seq<Byte>, alias: Name, attr: Byte, it: Item, x: Name)
    requires Ascii(name) && Legal(name) && ShortFor(short, alias) && EntryAttr(attr)
    requires it.first < TWO32 && it.size < TWO32
    requires Is83(name) ==> alias == name
    ensures
      var s := EntrySet(name, short, attr, it);
      var n := |s| - 1;
      && EntryForm(s)
      && (Matches(s[n], s[..n], x) <==> SameName(alias, x) || SameName(Known(name), x))
      && ItemOf(s[n]).first == it.first && ItemOf(s[n]).size == it.size && s[n][11] == attr
  {
    hide LfnRun, ShortSlot, Spelled, ItemOf, LongName, Ascii, Is83, Legal, EntrySet, Parse83, LfnCount, Checksum;
    LegalLength(name);
    var s := EntrySet(name, short, attr, it);
    EntryParts(name, short, attr, it);
    var n := |s| - 1;
    var d := s[n];
    ShortSlotReads(short, attr, it.first, it.size);
    ShortOnly(d, short);
    assert d[0] == d[..11][0];
    forall i | 0 <= i < n
      ensures IsLfn(s[i])
    {
      assert s[i] == s[..n][i];
      RunSlots(name, n, n, Checksum(short), i);
    }
    if Is83(name) {
      NoLongName();
    } else {
      LongRoundTrip(name, Checksum(short));
    }
  }

  lemma {:induction false} EntryParts(name: Name, short: seq<Byte>, attr: Byte, it: Item)
    requires |short| == 11 && it.first < TWO32 && it.size < TWO32 && |name| <= LFN_SLOTS * LFN_CHARS
    ensures
      var s := EntrySet(name, short, attr, it);
      var n := |s| - 1;
      && n == (if Is83(name) then 0 else LfnCount(name)) <= LFN_SLOTS
      && s[n] == ShortSlot(short, attr, it.first, it.size) && s[..n] == LfnRun(name, n, n, Checksum(short))
      && (Is83(name) ==> s[..n] == [])
  {
    hide ShortSlot, Is83, Checksum;
  }

  lemma {:induction false} NoLongName()
    ensures LongName([]) == []
  {
  }

  lemma {:induction false} LegalLength(name: Name)
    requires Legal(name)
    ensures 0 < |name| <= LFN_SLOTS * LFN_CHARS && LfnCount(name) <= LFN_SLOTS
  {
  }

  // ---- The driver's operations ---------------------------------------------------------------------------

  /** Where lookup found an entry: its slot, the long-name slots it collected, and its content. */
  datatype Hit = Hit(at: nat, run: seq<nat>, item: Item)

  function RunLen(slots: seq<Slot>, k: nat): nat
    requires k <= |slots|
  {
    if Block(slots, k) <= LFN_SLOTS then Block(slots, k) else LFN_SLOTS
  }

  /** The positions of the slots in AccAt. */
  predicate RunPositions(slots: seq<Slot>, k: nat, run: seq<nat>)
    requires k <= |slots|
  {
    |run| == RunLen(slots, k) && forall i :: 0 <= i < |run| ==> run[i] == k - Block(slots, k) + i
  }

  predicate HitAt(slots: seq<Slot>, name: Name, hit: Hit) {
    && Found(slots, name) == Some(hit.at) && hit.at < |slots|
    && hit.item == ItemOf(slots[hit.at]) && RunPositions(slots, hit.at, hit.run)
  }

  /** The directory after fat_mark_deleted. */
  function Marked(slots: seq<Slot>, k: nat): (r: seq<Slot>)
    requires k < |slots|
    ensures |r| == |slots|
  {
    var f := k - Block(slots, k);
    Erased(slots, f, f + RunLen(slots, k))[k := Retired(slots[k])]
  }

  /** What fat_find_free_run leaves: an end mark is put behind the run when an end mark was passed. */
  function Sealed(slots: seq<Slot>, e: nat): (r: seq<Slot>)
    ensures |r| == |slots|
  {
    if e < |slots| && slots[e][0] != 0 && (exists j :: 0 <= j < e && slots[j][0] == 0) then slots[e := ZERO_SLOT]
      else slots
  }

  predicate Extends(l: seq<Slot>, a: seq<Slot>) { |a| <= |l| && l[..|a|] == a }

  function Zeros(n: nat): (z: seq<Slot>)
    ensures |z| == n && AllZero(z) && forall i :: 0 <= i < n ==> z[i] == ZERO_SLOT
  {
    if n == 0 then [] else Zeros(n - 1) + [ZERO_SLOT]
  }

  lemma {:induction false} RunSlot(name: Name, n: nat, j: nat, check: Byte, i: nat)
    requires i < j <= n <= LFN_SLOTS
    ensures LfnRun(name, n, j, check)[i] == LfnSlot(name, j - i, j - i == n, check)
    decreases j
  {
    hide LfnSlot;
    RunHead(name, n, j, check);
    if i > 0 {
      RunSlot(name, n, j - 1, check, i - 1);
    }
  }

  /** Slots an entry set takes. */
  function SlotsOf(name: Name): nat { 1 + if Is83(name) then 0 else LfnCount(name) }

  ghost predicate NoRoom(slots: seq<Slot>, need: nat) { forall s: nat :: !FreeRun(slots, s, need) }

  lemma {:induction false} EntrySlots(name: Name, short: seq<Byte>, attr: Byte, it: Item, i: nat)
    requires |short| == 11 && it.first < TWO32 && it.size < TWO32 && |name| <= LFN_SLOTS * LFN_CHARS
    requires i < SlotsOf(name)
    ensures
      var entry := EntrySet(name, short, attr, it);
      var n := SlotsOf(name) - 1;
      && |entry| == n + 1 && n <= LFN_SLOTS
      && entry[i] == if i < n then LfnSlot(name, n - i, i == 0, Checksum(short))
        else ShortSlot(short, attr, it.first, it.size)
  {
    hide LfnSlot, ShortSlot, Checksum, Is83;
    var n := SlotsOf(name) - 1;
    if i < n {
      RunSlot(name, n, n, Checksum(short), i);
    }
  }

  /** No alias is left for a name. */
  predicate NoAlias(slots: seq<Slot>, name: Name) {
    !Is83(name) && forall n :: 1 <= n <= 99 ==> Found(slots, Alias(name, n)).Some?
  }

  /** The slots of a new entry under a free alias. */
  ghost predicate NewEntry(slots: seq<Slot>, name: Name, attr: Byte, it: Item, entry: seq<Slot>, alias: Name)
    requires it.first < TWO32 && it.size < TWO32 && |name| <= LFN_SLOTS * LFN_CHARS
  {
    && |Make83(alias)| == 11 && entry == EntrySet(name, Make83(alias), attr, it) && ShortFor(Make83(alias), alias)
    && if Is83(name) then alias == name else Found(slots, alias).None?
  }

  /** A state of the directory while a set is being written: cluster added, end mark moved, or the first
      m slots written. */
  predicate Writing(l: seq<Slot>, was: seq<Slot>, base: seq<Slot>, at: nat, entry: seq<Slot>) {
    || Extends(l, was)
    || (at + |entry| <= |base|
      && exists m: nat ::
        && m <= |entry|
        && l == Placed(Sealed(base, at + |entry|), at, entry[..m]))
  }

  lemma {:induction false} WritingPart(s0: seq<Slot>, was: seq<Slot>, base: seq<Slot>, at: nat, entry: seq<Slot>,
      m: nat)
    requires m <= |entry| && at + |entry| <= |base| && s0 == Sealed(base, at + |entry|)
    ensures Writing(Placed(s0, at, entry[..m]), was, base, at, entry)
  {
  }

  lemma {:induction false} PlacedNext(slots: seq<Slot>, p: nat, entry: seq<Slot>, m: nat)
    requires m < |entry| && p + |entry| <= |slots|
    ensures Placed(slots, p, entry[..m])[p + m := entry[m]] == Placed(slots, p, entry[..m + 1])
  {
  }

  /** A state of the directory while an entry is being deleted. */
  predicate Marking(l: seq<Slot>, slots: seq<Slot>, k: nat)
    requires k < |slots|
  {
    var f := k - Block(slots, k);
    l == Marked(slots, k) || exists t: nat :: f <= t <= f + RunLen(slots, k) && l == Erased(slots, f, t)
  }

  lemma {:induction false} PlacedNone(slots: seq<Slot>, p: nat, entry: seq<Slot>)
    requires p <= |slots|
    ensures Placed(slots, p, entry[..0]) == slots
  {
  }

  lemma {:induction false} MarkingStart(slots: seq<Slot>, k: nat, run: seq<nat>)
    requires k < |slots| && RunPositions(slots, k, run)
    ensures
      var f := k - Block(slots, k);
      f + |run| <= k && Erased(slots, f, f) == slots
  {
    hide Block;
  }

  lemma {:induction false} MarkingNext(slots: seq<Slot>, k: nat, run: seq<nat>, i: nat)
    requires k < |slots| && RunPositions(slots, k, run) && i < |run|
    ensures
      var f := k - Block(slots, k);
      && f + |run| <= k && run[i] == f + i
      && var s := Erased(slots, f, f + i);
         s[f + i := s[f + i][0 := FREE_MARK]] == Erased(slots, f, f + i + 1)
           && Marking(Erased(slots, f, f + i + 1), slots, k)
         && Erasing(Erased(slots, f, f + i + 1), slots, k)
  {
    hide Block;
    var f := k - Block(slots, k);
    assert Erased(slots, f, f + i)[f + i] == slots[f + i];
  }

  lemma {:induction false} MarkingLast(slots: seq<Slot>, k: nat, run: seq<nat>)
    requires k < |slots| && RunPositions(slots, k, run)
    ensures
      var f := k - Block(slots, k);
      && f + |run| <= k
      && var s := Erased(slots, f, f + |run|);
         s[k := s[k][0 := FREE_MARK]] == Marked(slots, k) && Marking(Marked(slots, k), slots, k)
  {
    hide Block;
  }

  lemma {:induction false} LegalSlots(name: Name)
    requires Legal(name)
    ensures 0 < |name| <= LFN_SLOTS * LFN_CHARS && SlotsOf(name) <= SET_MAX
    ensures SlotsOf(name) == 1 + if Is83(name) then 0 else LfnCount(name)
  {
    LegalLength(name);
  }

  lemma {:induction false} AliasesGone(slots: seq<Slot>, name: Name)
    requires !Is83(name) && forall n :: 1 <= n <= 99 ==> Found(slots, Alias(name, n)).Some?
    ensures NoAlias(slots, name)
  {
    hide Is83, Found, Alias;
  }

  lemma {:induction false} AliasLeft(slots: seq<Slot>, name: Name, n: nat)
    requires 1 <= n <= 99 && Found(slots, Alias(name, n)).None?
    ensures !NoAlias(slots, name)
  {
    hide Is83, Found, Alias;
  }

  lemma {:induction false} ShortAlias(slots: seq<Slot>, name: Name)
    ensures Is83(name) ==> !NoAlias(slots, name)
  {
    hide Is83, Found, Alias;
  }

  lemma {:induction false} FitNot(base: seq<Slot>, at: nat, need: nat)
    requires FirstFit(base, at, need)
    ensures !NoRoom(base, need)
  {
  }

  lemma {:induction false} FitRoom(base: seq<Slot>, at: nat, need: nat)
    requires FirstFit(base, at, need)
    ensures at + need <= |base|
  {
  }

  lemma {:induction false} WritingStarts(was: seq<Slot>, base: seq<Slot>, at: nat, entry: seq<Slot>)
    requires at + |entry| <= |base|
    ensures Writing(Sealed(base, at + |entry|), was, base, at, entry)
    ensures forall l :: Extends(l, was) ==> Writing(l, was, base, at, entry)
  {
    hide Sealed;
    PlacedNone(Sealed(base, at + |entry|), at, entry);
  }

  // ---- What creation does ------------------------------------------------------------------------------

  /** A set fitted into a directory, which may have grown for it. */
  ghost predicate Fitted(was: seq<Slot>, base: seq<Slot>, per: nat, at: nat, need: nat) {
    (base == was || base == was + Zeros(per)) && FirstFit(base, at, need) && need > 0
  }

  lemma {:induction false} FittedTidy(was: seq<Slot>, base: seq<Slot>, per: nat, at: nat, need: nat)
    requires Tidy(was) && Fitted(was, base, per, at, need)
    ensures Tidy(base) && Sealed(base, at + need) == base && Extends(base, was)
    ensures forall k: nat, x: Name :: Shows(base, k, x) <==> Shows(was, k, x)
  {
    hide Shows;
    var z := Zeros(per);
    if base != was {
      ZeroTidy(was, z);
      forall k: nat, x: Name
        ensures Shows(base, k, x) <==> Shows(was, k, x)
      {
        ZeroShows(was, z, k, x);
      }
    }
  }

  /** The end of every creation: the new entry goes by its name and its alias; nothing else changes. */
  lemma {:induction false} CreatedShows(was: seq<Slot>, base: seq<Slot>, per: nat, at: nat, entry: seq<Slot>,
      name: Name, attr: Byte, it: Item, alias: Name, k: nat, x: Name)
    requires Tidy(was) && Fitted(was, base, per, at, |entry|) && Ascii(name) && Legal(name) && EntryAttr(attr)
    requires it.first < TWO32 && it.size < TWO32 && |name| <= LFN_SLOTS * LFN_CHARS
      && NewEntry(was, name, attr, it, entry, alias)
    ensures EntryForm(entry) && at + |entry| <= |base|
    ensures Shows(Placed(base, at, entry), k, x) <==>
      if k == at + |entry| - 1 then SameName(alias, x) || SameName(Known(name), x) else Shows(was, k, x)
  {
    hide Shows, Legal, Ascii, Is83, Known, Matches, Make83, EntryForm, Tidy, FirstFit, Placed, ShortFor, Zeros,
      EntrySet, Sealed, Extends, Found, SameName, EntryAttr;
    EntrySetForm(name, Make83(alias), alias, attr, it, x);
    FittedTidy(was, base, per, at, |entry|);
    FitRoom(base, at, |entry|);
    assert entry[..|entry|] == entry;
    PlacedShows(base, at, entry, |entry|, k, x);
  }

  lemma {:induction false} SameFound(slots: seq<Slot>, x: Name, y: Name)
    requires SameName(x, y)
    ensures Found(slots, x) == Found(slots, y)
  {
    hide LongName, Parse83, AccAt, Live, IsShort, UpperAll;
    forall k: nat
      ensures Shows(slots, k, x) <==> Shows(slots, k, y)
    {
    }
    hide Shows;
    var f, g := Found(slots, x), Found(slots, y);
    if f.Some? {
      assert Shows(slots, f.value, y);
      assert g.Some? && Shows(slots, g.value, x);
    }
  }

  /** Creation and lookup: a created name leads to the new entry, and every name that led somewhere
      still leads there. */
  lemma {:induction false} CreationFinds(was: seq<Slot>, base: seq<Slot>, per: nat, at: nat, entry: seq<Slot>,
      name: Name, attr: Byte, it: Item, alias: Name, x: Name)
    requires Tidy(was) && Fitted(was, base, per, at, |entry|) && Ascii(name) && Legal(name) && EntryAttr(attr)
    requires it.first < TWO32 && it.size < TWO32 && |name| <= LFN_SLOTS * LFN_CHARS
      && NewEntry(was, name, attr, it, entry, alias)
    requires Found(was, Known(name)).None?
    ensures at + |entry| <= |base| && Tidy(Placed(base, at, entry))
    ensures Found(Placed(base, at, entry), x) ==
      if Found(was, x).Some? then Found(was, x)
      else if SameName(alias, x) || SameName(Known(name), x) then Some(at + |entry| - 1) else None
  {
    hide Shows, Legal, Ascii, Is83, Matches, Make83, EntryForm, Tidy, FirstFit, Placed, ShortFor, Zeros, EntrySet,
      Sealed, Extends, SameName, EntryAttr, Spelled;
    FitRoom(base, at, |entry|);
    var c, e := Placed(base, at, entry), at + |entry| - 1;
    CreatedShows(was, base, per, at, entry, name, attr, it, alias, e, x);
    FittedTidy(was, base, per, at, |entry|);
    FirstIsFit(base, at, |entry|);
    PlacedTidy(base, at, entry);
    forall k: nat
      ensures Shows(c, k, x) <==> if k == e then SameName(alias, x) || SameName(Known(name), x) else Shows(was, k, x)
    {
      CreatedShows(was, base, per, at, entry, name, attr, it, alias, k, x);
    }
    NotThere(was, base, at, |entry|, x);
    if SameName(alias, x) {
      SameFound(was, alias, x);
    }
    if SameName(Known(name), x) {
      SameFound(was, Known(name), x);
    }
    hide Known;
    AddedOne(was, c, e, x);
  }

  lemma {:induction false} NotThere(was: seq<Slot>, base: seq<Slot>, at: nat, need: nat, x: Name)
    requires FirstFit(base, at, need) && need > 0 && Extends(base, was)
    ensures !Shows(was, at + need - 1, x)
  {
    var e := at + need - 1;
    assert Free(base[e]);
    if e < |was| {
      assert base[e] == base[..|was|][e];
    }
  }

  lemma {:induction false} AddedOne(a: seq<Slot>, c: seq<Slot>, e: nat, x: Name)
    requires !Shows(a, e, x) && forall k: nat :: k != e ==> (Shows(c, k, x) <==> Shows(a, k, x))
    requires Shows(c, e, x) ==> Found(a, x).None?
    ensures Found(c, x) == if Found(a, x).Some? then Found(a, x) else if Shows(c, e, x) then Some(e) else None
  {
    hide Shows;
    var f, g := Found(a, x), Found(c, x);
    if f.Some? {
      assert Shows(c, f.value, x);
      assert g.Some? && Shows(a, g.value, x);
    } else if g.Some? {
      assert g.value == e;
    }
  }

  /** The directory after a creation: the new entry at position e has the content asked for and is what the
      name and the alias lead to; every name that led somewhere still leads there; nothing else is found. */
  ghost predicate Created(a: seq<Slot>, c: seq<Slot>, e: int, name: Name, alias: Name, attr: Byte, it: Item) {
    && Tidy(c) && 0 <= e < |c|
    && ItemOf(c[e]).first == it.first && ItemOf(c[e]).size == it.size && c[e][11] == attr
    && forall x: Name :: Found(c, x) ==
         if Found(a, x).Some? then Found(a, x) else if SameName(alias, x) || SameName(Known(name), x) then Some(e)
           else None
  }

  lemma {:induction false} CreationDone(was: seq<Slot>, base: seq<Slot>, per: nat, at: nat, entry: seq<Slot>,
      name: Name, attr: Byte, it: Item, alias: Name)
    requires Tidy(was) && Fitted(was, base, per, at, |entry|) && Ascii(name) && Legal(name) && EntryAttr(attr)
    requires it.first < TWO32 && it.size < TWO32 && |name| <= LFN_SLOTS * LFN_CHARS
      && NewEntry(was, name, attr, it, entry, alias)
    requires Found(was, Known(name)).None?
    ensures at + |entry| <= |base| && Created(was, Placed(Sealed(base, at + |entry|), at, entry), at + |entry| - 1,
      name, alias, attr, it)
  {
    hide Legal, Ascii, Is83, Make83, EntryForm, Tidy, FirstFit, ShortFor, Zeros, EntrySet, Sealed, Extends, SameName,
      EntryAttr, Spelled, Known, Found, ItemOf;
    FitRoom(base, at, |entry|);
    FittedTidy(was, base, per, at, |entry|);
    CreationFinds(was, base, per, at, entry, name, attr, it, alias, name);
    EntrySetForm(name, Make83(alias), alias, attr, it, name);
    var c := Placed(base, at, entry);
    assert c[at + |entry| - 1] == entry[|entry| - 1];
    hide Placed;
    forall x: Name
      ensures Found(c, x) == if Found(was, x).Some? then Found(was, x) else if SameName(alias, x)
        || SameName(Known(name), x) then Some(at + |entry| - 1) else None
    {
      CreationFinds(was, base, per, at, entry, name, attr, it, alias, x);
    }
  }

  /** Deletion and lookup: a name that led elsewhere still does; one that only the deleted entry had leads
      nowhere. */
  lemma {:induction false} DeletionFinds(a: seq<Slot>, k: nat, x: Name)
    requires Tidy(a) && k < |a| && Live(a, k) && IsShort(a[k])
    ensures Tidy(Marked(a, k))
    ensures Found(a, x) != Some(k) ==> Found(Marked(a, k), x) == Found(a, x)
    ensures Found(a, x) == Some(k) && (forall j: nat :: j != k ==> !Shows(a, j, x)) ==> Found(Marked(a, k), x).None?
  {
    hide Shows, Live, IsShort, Marked, Erased;
    BlockBound(a, k);
    hide Tidy, Block;
    MarkedErased(a, k);
    ErasedTidy(a, k, k + 1);
    var c := Marked(a, k);
    forall j: nat
      ensures Shows(c, j, x) <==> j != k && Shows(a, j, x)
    {
      ErasedShows(a, k, k + 1, j, x);
    }
    var f, g := Found(a, x), Found(c, x);
    if f.Some? && f.value != k {
      assert Shows(c, f.value, x);
      assert g.Some? && Shows(a, g.value, x);
    }
  }

  /** The known name of a name of at most four long-name slots is the name itself: what was created is
      found under the name it was created with. */
  lemma {:induction false} KnownAs(name: Name)
    requires Ascii(name) && Legal(name)
    ensures SameName(Known(name), name) <==> |name| <= 4 * LFN_CHARS
    ensures |name| <= 4 * LFN_CHARS ==> Known(name) == name
  {
  }

  // ---- Rename ------------------------------------------------------------------------------------------

  /** The states in which only long-name slots before position k have been retired. */
  predicate Erasing(l: seq<Slot>, slots: seq<Slot>, k: nat)
    requires k < |slots|
  {
    var f := k - Block(slots, k);
    exists t: nat :: f <= t <= k && l == Erased(slots, f, t)
  }

  /** The state of a directory after the entry at position k was renamed: the entry at position e goes by
      the new name (and an alias), has the old content, and all other entries show what they did. */
  ghost predicate Renamed(a: seq<Slot>, c: seq<Slot>, k: nat, e: nat, name: Name, alias: Name) {
    && k < |a| && e < |c| && Tidy(c)
    && ItemOf(c[e]) == ItemOf(a[k])
    && (SameName(alias, Known(name)) || Found(a, alias).None?)
    && (e != k ==> forall x: Name :: !Shows(a, e, x))
    && forall j: nat, x: Name :: Shows(c, j, x) <==>
         if j == e then SameName(alias, x) || SameName(Known(name), x) else j != k && Shows(a, j, x)
  }

  /** After a rename the new name leads to the entry; every name that led to another entry still does;
      and the old name leads nowhere if no other entry had it. */
  lemma {:induction false} RenamedFinds(a: seq<Slot>, c: seq<Slot>, k: nat, e: nat, name: Name, alias: Name, x: Name)
    requires Renamed(a, c, k, e, name, alias) && Found(a, Known(name)).None?
    ensures Found(c, Known(name)) == Some(e)
    ensures Found(a, x).Some? && Found(a, x).value != k ==> Found(c, x) == Found(a, x)
    ensures Found(a, x) == Some(k) && (forall j: nat :: j != k ==> !Shows(a, j, x)) ==> Found(c, x).None?
  {
    hide Shows, Tidy, Known, SameName;
    SameReflexive(Known(name));
    if SameName(alias, x) {
      SameFound(a, alias, x);
      if SameName(alias, Known(name)) {
        SameFound(a, alias, Known(name));
      }
    }
    if SameName(Known(name), x) {
      SameFound(a, Known(name), x);
    }
    var g, f := Found(c, x), Found(a, x);
    if f.Some? {
      assert !Shows(c, e, x);
      if f.value != k {
        assert Shows(c, f.value, x);
        assert g.Some? && Shows(a, g.value, x);
      }
    }
    assert Shows(c, e, Known(name));
    forall j: nat | j < e
      ensures !Shows(c, j, Known(name))
    {
      NotFound(a, Known(name), j);
    }
  }

  lemma {:induction false} SameReflexive(x: Name)
    ensures SameName(x, x)
  {
  }

  /** Rewriting the short name in place: from the first write on, the new name leads to the entry. */
  lemma {:induction false} RenameShort(a: seq<Slot>, k: nat, name: Name, l: seq<Slot>)
    requires k < |a| && Live(a, k) && IsShort(a[k]) && Is83(name) && Found(a, name).None?
    requires Erasing(l, a[k := Named(a[k], Make83(name))], k)
    ensures Found(l, name) == Some(k) && k < |l| && ItemOf(l[k]) == ItemOf(a[k])
  {
    hide Shows, Make83, Is83, Block, Parse83, SameName, Found, Named, IsShort, Live, Matches, AccAt, ItemOf, Erased;
    NamedEntry(a[k], name);
    var d := Named(a[k], Make83(name));
    var b := a[k := d];
    var f := k - Block(b, k);
    var t: nat :| f <= t <= k && l == Erased(b, f, t);
    assert l[k] == d;
    forall j: nat | j < k
      ensures !Shows(l, j, name)
    {
      RenameShortOther(a, k, d, t, j, name);
    }
    LiveUpTo(a, l, k);
    NameMatches(d, AccAt(l, k), name);
    Seen(l, k, name);
  }

  lemma {:induction false} RenameShortOther(a: seq<Slot>, k: nat, d: Slot, t: nat, j: nat, name: Name)
    requires j < k < |a| && IsShort(a[k]) && IsShort(d) && Found(a, name).None?
    requires k - Block(a[k := d], k) <= t <= k
    ensures !Shows(Erased(a[k := d], k - Block(a[k := d], k), t), j, name)
  {
    hide Shows, Block, Found, IsShort, Live, Matches, AccAt, Erased;
    NamedShows(a, k, d, j, name);
    ErasedShows(a[k := d], k, t, j, name);
    NotFound(a, name, j);
  }

  lemma {:induction false} LiveUpTo(a: seq<Slot>, l: seq<Slot>, k: nat)
    requires k < |a| == |l| && Live(a, k) && forall j :: 0 <= j < k ==> l[j] == a[j] || l[j] == Retired(a[j])
    requires l[k][0] != 0
    ensures forall j :: 0 <= j <= k ==> l[j][0] != 0
  {
  }

  lemma {:induction false} NameMatches(d: Slot, acc: seq<Slot>, name: Name)
    requires SameName(Parse83(d), name)
    ensures Matches(d, acc, name)
  {
  }

  lemma {:induction false} NotFound(a: seq<Slot>, name: Name, j: nat)
    requires Found(a, name).None?
    ensures !Shows(a, j, name)
  {
    hide Shows;
  }

  lemma {:induction false} NamedEntry(d: Slot, name: Name)
    requires Is83(name) && IsShort(d)
    ensures
      var n := Named(d, Make83(name));
      IsShort(n) && ItemOf(n) == ItemOf(d) && SameName(Parse83(n), name) && n[0] != 0
  {
    hide Is83, Make83, Parse83, SameName;
    Is83Short(name);
    var n := Named(d, Make83(name));
    ShortOnly(n, Make83(name));
  }

  /** Retiring the old long name completes an in-place rename. */
  lemma {:induction false} RenameShortDone(a: seq<Slot>, k: nat, name: Name)
    requires k < |a| && Tidy(a) && Live(a, k) && IsShort(a[k]) && Is83(name)
    ensures
      var b := a[k := Named(a[k], Make83(name))];
      Renamed(a, Erased(b, k - Block(b, k), k), k, k, name, name)
  {
    hide Shows, Make83, Is83, Parse83, SameName, Found, Tidy, LongName, Live;
    NamedEntry(a[k], name);
    SameReflexive(Known(name));
    assert Known(name) == name;
    var d := Named(a[k], Make83(name));
    var b := a[k := d];
    hide Named, Known;
    NamedTidy(a, k, d);
    LiveSame(a, b, k);
    ErasedTidy(b, k, k);
    var c := Erased(b, k - Block(b, k), k);
    LiveSame(b, c, k);
    NoLongName();
    forall j: nat, x: Name
      ensures Shows(c, j, x) <==> if j == k then SameName(name, x) || SameName(Known(name), x) else Shows(a, j, x)
    {
      NamedShows(a, k, d, j, x);
      ErasedShows(b, k, k, j, x);
      if j == k {
        BareEntry(c, k, x);
        SameTransitive(Parse83(d), name, x);
      }
    }
    assert ItemOf(c[k]) == ItemOf(a[k]);
  }

  lemma {:induction false} LiveSame(a: seq<Slot>, b: seq<Slot>, k: nat)
    requires k < |a| == |b| && forall i :: 0 <= i < |a| ==> (a[i][0] != 0 <==> b[i][0] != 0)
    ensures Live(a, k) <==> Live(b, k)
  {
  }

  lemma {:induction false} SameTransitive(x: Name, y: Name, z: Name)
    requires SameName(x, y)
    ensures SameName(x, z) <==> SameName(y, z)
  {
  }

  /** An entry without long-name slots goes by its short name only. */
  lemma {:induction false} BareEntry(c: seq<Slot>, k: nat, x: Name)
    requires k < |c| && Live(c, k) && IsShort(c[k]) && (k == 0 || !IsLfn(c[k - 1]))
    ensures Shows(c, k, x) <==> SameName(Parse83(c[k]), x)
  {
    hide Parse83, SameName, LongName;
    Discard(c, k);
    NoLongName();
  }

  /** While a new set is being written, every name that led somewhere still leads there. */
  lemma {:induction false} WritingKeeps(was: seq<Slot>, base: seq<Slot>, per: nat, at: nat, entry: seq<Slot>,
      name: Name, attr: Byte, it: Item, alias: Name, l: seq<Slot>, x: Name)
    requires Tidy(was) && Fitted(was, base, per, at, |entry|) && Ascii(name) && Legal(name) && EntryAttr(attr)
    requires it.first < TWO32 && it.size < TWO32 && |name| <= LFN_SLOTS * LFN_CHARS
      && NewEntry(was, name, attr, it, entry, alias)
    requires Found(was, Known(name)).None? && Found(was, x).Some? && Writing(l, was, base, at, entry)
    ensures
      var f := Found(was, x).value;
      Found(l, x) == Some(f) && f < |l| && f < |was| && l[f] == was[f]
  {
    hide Shows, Legal, Ascii, Is83, Known, Matches, Make83, EntryForm, Tidy, FirstFit, Placed, ShortFor, Zeros,
      EntrySet, Sealed, SameName, EntryAttr, Spelled, Found;
    FittedTidy(was, base, per, at, |entry|);
    FitRoom(base, at, |entry|);
    FoundSlot(was, x);
    if Extends(l, was) {
      assert l == was + l[|was|..];
      GrownFound(was, l[|was|..], x);
    } else {
      var f := Found(was, x).value;
      var m: nat :| m <= |entry| && l == Placed(base, at, entry[..m]);
      NotInRun(was, base, at, |entry|, f, x);
      assert base[f] == base[..|was|][f] == was[f];
      if m == |entry| {
        assert entry[..m] == entry;
        CreationFinds(was, base, per, at, entry, name, attr, it, alias, x);
      } else {
        CreatedShows(was, base, per, at, entry, name, attr, it, alias, 0, x);
        forall k: nat
          ensures Shows(l, k, x) <==> Shows(was, k, x)
        {
          PlacedShows(base, at, entry, m, k, x);
        }
        FoundSame(was, l, x);
      }
    }
  }

  lemma {:induction false} FoundSlot(slots: seq<Slot>, x: Name)
    requires Found(slots, x).Some?
    ensures
      var f := Found(slots, x).value;
      f < |slots| && Shows(slots, f, x) && Live(slots, f) && IsShort(slots[f])
  {
    hide Matches, AccAt, Live, IsShort;
  }

  lemma {:induction false} NotInRun(was: seq<Slot>, base: seq<Slot>, at: nat, need: nat, f: nat, x: Name)
    requires FirstFit(base, at, need) && Extends(base, was) && Shows(was, f, x)
    ensures f < |was| && (f < at || at + need <= f)
  {
    KeptLive(was, f, x);
    assert base[f] == base[..|was|][f];
  }

  /** While the old set is being retired, the new name leads to an entry with the old content. */
  lemma {:induction false} MarkingKeeps(c: seq<Slot>, k: nat, l: seq<Slot>, x: Name, it: Item)
    requires Tidy(c) && k < |c| && IsShort(c[k]) && ItemOf(c[k]) == it
    requires Found(c, x).Some? && Found(c, x).value != k && Resolves(c, x, it) && Marking(l, c, k)
    ensures Resolves(l, x, it)
  {
    hide Shows, Tidy, ItemOf, Block, IsShort, Marking, Marked;
    MarkingErased(c, k, l);
    var f, e := k - Block(c, k), Found(c, x).value;
    var t: nat :| f <= t <= k + 1 && l == Erased(c, f, t);
    forall j: nat
      ensures j != k ==> (Shows(l, j, x) <==> Shows(c, j, x))
      ensures t == k + 1 ==> !Shows(l, k, x)
    {
      ErasedShows(c, k, t, j, x);
    }
    assert Shows(l, e, x);
    var g := Found(l, x).value;
    FoundSlot(l, x);
    if g == k {
      assert l[k] == c[k];
    } else {
      assert g == e;
      assert l[e] == c[e] by { OutsideRun(c, k, e, x); }
    }
  }

  lemma {:induction false} OutsideRun(c: seq<Slot>, k: nat, e: nat, x: Name)
    requires k < |c| && Shows(c, e, x) && e != k
    ensures !(k - Block(c, k) <= e < k)
  {
  }

  lemma {:induction false} MarkingErased(c: seq<Slot>, k: nat, l: seq<Slot>)
    requires Tidy(c) && k < |c| && Marking(l, c, k)
    ensures
      var f := k - Block(c, k);
      exists t: nat :: f <= t <= k + 1 && l == Erased(c, f, t)
  {
    hide Block, ZeroTail, NoOrphans;
    var f := k - Block(c, k);
    assert Block(c, k) <= LFN_SLOTS;
    if l == Marked(c, k) {
      MarkedErased(c, k);
      assert l == Erased(c, f, k + 1);
    }
  }

  lemma {:induction false} MarkedErased(c: seq<Slot>, k: nat)
    requires k < |c| && Block(c, k) <= LFN_SLOTS
    ensures Marked(c, k) == Erased(c, k - Block(c, k), k + 1)
  {
    hide Block;
  }

  /** Creating the new set and retiring the old one completes a rename to a long name. */
  lemma {:induction false} RenameLongDone(a: seq<Slot>, base: seq<Slot>, per: nat, at: nat, entry: seq<Slot>,
      name: Name, attr: Byte, alias: Name, k: nat, child: Name)
    requires Tidy(a) && Fitted(a, base, per, at, |entry|) && Ascii(name) && Legal(name) && EntryAttr(attr)
    requires k < |a| && a[k][11] == attr && |name| <= LFN_SLOTS * LFN_CHARS
      && NewEntry(a, name, attr, ItemOf(a[k]), entry, alias)
    requires Found(a, Known(name)).None? && Found(a, child) == Some(k)
    ensures at + |entry| <= |base| && k < |base| && var c := Placed(base, at, entry);
      && Renamed(a, Marked(c, k), k, at + |entry| - 1, name, alias)
      && Tidy(c) && c[k] == a[k] && Found(c, Known(name)) == Some(at + |entry| - 1) != Some(k)
        && Resolves(c, Known(name), ItemOf(a[k]))
  {
    hide Shows, Legal, Ascii, Is83, Known, Matches, Make83, EntryForm, Tidy, FirstFit, ShortFor, Zeros, EntrySet,
      Sealed, SameName, EntryAttr, Spelled, Found, Block, ItemOf, IsShort, Live;
    var it := ItemOf(a[k]);
    var e := at + |entry| - 1;
    FitRoom(base, at, |entry|);
    FittedTidy(a, base, per, at, |entry|);
    FoundSlot(a, child);
    NotInRun(a, base, at, |entry|, k, child);
    var c := Placed(base, at, entry);
    SameReflexive(Known(name));
    CreationFinds(a, base, per, at, entry, name, attr, it, alias, Known(name));
    assert base[k] == base[..|a|][k] == a[k];
    EntrySetForm(name, Make83(alias), alias, attr, it, name);
    SameItem(entry[|entry| - 1], a[k]);
    assert c[e] == entry[|entry| - 1];
    forall j: nat, x: Name
      ensures Shows(c, j, x) <==> if j == e then SameName(alias, x) || SameName(Known(name), x) else Shows(a, j, x)
    {
      CreatedShows(a, base, per, at, entry, name, attr, it, alias, j, x);
    }
    forall x: Name
      ensures !Shows(a, e, x)
    {
      NotThere(a, base, at, |entry|, x);
    }
    KeptLive(c, k, child);
    AliasFree(a, name, attr, it, entry, alias);
    MarkedRenames(a, c, k, e, name, alias);
  }

  lemma {:induction false} AliasFree(a: seq<Slot>, name: Name, attr: Byte, it: Item, entry: seq<Slot>, alias: Name)
    requires it.first < TWO32 && it.size < TWO32 && |name| <= LFN_SLOTS * LFN_CHARS
      && NewEntry(a, name, attr, it, entry, alias)
    ensures SameName(alias, Known(name)) || Found(a, alias).None?
  {
    hide Is83, Found, Make83, EntrySet, ShortFor, Spelled;
  }

  lemma {:induction false} KeptLive(c: seq<Slot>, k: nat, child: Name)
    requires Shows(c, k, child)
    ensures k < |c| && Live(c, k) && IsShort(c[k])
  {
  }

  lemma {:induction false} SameItem(d: Slot, o: Slot)
    requires ItemOf(d).first == ItemOf(o).first && ItemOf(d).size == ItemOf(o).size && d[11] == o[11]
    ensures ItemOf(d) == ItemOf(o)
  {
  }

  lemma {:induction false} MarkedRenames(a: seq<Slot>, c: seq<Slot>, k: nat, e: nat, name: Name, alias: Name)
    requires Tidy(c) && k < |a| && k < |c| && e < |c| && e != k && Live(c, k) && IsShort(c[k])
      && ItemOf(c[e]) == ItemOf(a[k])
    requires SameName(alias, Known(name)) || Found(a, alias).None?
    requires forall x: Name :: !Shows(a, e, x)
    requires Shows(c, e, Known(name))
    requires forall j: nat, x: Name :: Shows(c, j, x) <==> if j == e then SameName(alias, x)
      || SameName(Known(name), x) else Shows(a, j, x)
    ensures Renamed(a, Marked(c, k), k, e, name, alias)
  {
    hide Shows, Known, Matches, SameName, Found, ItemOf, IsShort, Live, Marked;
    assert Block(c, k) <= LFN_SLOTS;
    hide Block;
    MarkedErased(c, k);
    ErasedTidy(c, k, k + 1);
    var m := Marked(c, k);
    assert m[e] == c[e] by { OutsideRun(c, k, e, Known(name)); }
    hide Tidy, Erased;
    forall j: nat, x: Name
      ensures Shows(m, j, x) <==> if j == e then SameName(alias, x) || SameName(Known(name), x)
        else j != k && Shows(a, j, x)
    {
      ErasedShows(c, k, k + 1, j, x);
    }
  }

  /** In each state from number `from` on, the old name or the new one leads to the old content. */
  predicate RenameSafe(a: seq<Slot>, child: Name, name: Name, log: seq<seq<Slot>>, from: nat) {
    var f := Found(a, child);
    && f.Some? && f.value < |a|
    && forall i :: from <= i < |log| ==>
      || Resolves(log[i], child, ItemOf(a[f.value]))
      || Resolves(log[i], Known(name), ItemOf(a[f.value]))
  }

  lemma {:induction false} KnownShort(name: Name)
    requires Is83(name)
    ensures Known(name) == name
  {
  }

  lemma {:induction false} ErasingStart(b: seq<Slot>, k: nat)
    requires k < |b|
    ensures Erasing(b, b, k)
  {
    var f := k - Block(b, k);
    assert Erased(b, f, f) == b;
  }

  lemma {:induction false} RenamedRun(a: seq<Slot>, k: nat, name: Name, run: seq<nat>)
    requires k < |a| && IsShort(a[k]) && Is83(name) && RunPositions(a, k, run)
    ensures RunPositions(a[k := Named(a[k], Make83(name))], k, run)
    ensures Named(a[k], Make83(name)) == Make83(name) + a[k][11..]
  {
    hide Is83, Make83, Block, Shows, Parse83, SameName;
    NamedEntry(a[k], name);
    NamedShows(a, k, Named(a[k], Make83(name)), k, name);
  }

  lemma {:induction false} InPlaceEnd(a: seq<Slot>, k: nat, name: Name, run: seq<nat>)
    requires k < |a| && Tidy(a) && Live(a, k) && IsShort(a[k]) && Is83(name) && RunPositions(a, k, run)
    ensures
      var b := a[k := Named(a[k], Make83(name))];
      var f := k - Block(b, k);
      f + |run| <= k ==> Renamed(a, Erased(b, f, f + |run|), k, k, name, name)
  {
    hide Is83, Make83, Renamed, Named, Erased, Live, IsShort;
    RenamedRun(a, k, name, run);
    RenameShortDone(a, k, name);
    BlockBound(a, k);
    hide Tidy, Block;
    var b := a[k := Named(a[k], Make83(name))];
    RenamedBlock(a, k, name);
  }

  lemma {:induction false} RenamedBlock(a: seq<Slot>, k: nat, name: Name)
    requires k < |a| && IsShort(a[k]) && Is83(name)
    ensures Block(a[k := Named(a[k], Make83(name))], k) == Block(a, k)
  {
    hide Is83, Make83, Block, Shows, Parse83, SameName;
    NamedEntry(a[k], name);
    NamedShows(a, k, Named(a[k], Make83(name)), k, name);
  }

  lemma {:induction false} BlockBound(a: seq<Slot>, k: nat)
    requires Tidy(a) && k <= |a|
    ensures Block(a, k) <= LFN_SLOTS
  {
    hide Block, ZeroTail, NoOrphans;
  }

  lemma {:induction false} InPlaceSafe(a: seq<Slot>, k: nat, name: Name, child: Name, log: seq<seq<Slot>>, from: nat)
    requires Found(a, child) == Some(k) && k < |a| && Live(a, k) && IsShort(a[k]) && Is83(name) && Found(a, name).None?
    requires forall i :: from <= i < |log| ==> Erasing(log[i], a[k := Named(a[k], Make83(name))], k)
    ensures RenameSafe(a, child, name, log, from)
  {
    hide Live, IsShort, Is83, Found, Erasing, Make83, Named, ItemOf, Known;
    KnownShort(name);
    forall i | from <= i < |log|
      ensures Resolves(log[i], Known(name), ItemOf(a[k]))
    {
      RenameShort(a, k, name, log[i]);
    }
  }

  lemma {:induction false} FoundAttr(slots: seq<Slot>, child: Name)
    requires Found(slots, child).Some?
    ensures
      var k := Found(slots, child).value;
      k < |slots| && EntryAttr(slots[k][11])
  {
    hide Found;
    FoundSlot(slots, child);
  }

  /** Writing a new set moves neither an entry nor its long-name slots. */
  lemma {:induction false} RunKept(was: seq<Slot>, base: seq<Slot>, per: nat, at: nat, entry: seq<Slot>, name: Name,
      attr: Byte, it: Item, alias: Name, child: Name, hit: Hit)
    requires HitAt(was, child, hit) && Fitted(was, base, per, at, |entry|) && Ascii(name) && Legal(name)
      && EntryAttr(attr)
    requires it.first < TWO32 && it.size < TWO32 && |name| <= LFN_SLOTS * LFN_CHARS
      && NewEntry(was, name, attr, it, entry, alias)
    ensures at + |entry| <= |base| && var c := Placed(Sealed(base, at + |entry|), at, entry);
      hit.at < |c| && RunPositions(c, hit.at, hit.run)
  {
    hide Legal, Ascii, Is83, Known, Matches, Make83, EntrySet, ShortFor, ItemOf, Found, AccAt, EntryAttr, Block, Zeros,
      FirstFit, Live, IsShort, Placed, Sealed, EntryForm, HitAt, RunPositions, NewEntry;
    var k := hit.at;
    NewEntryForm(was, name, attr, it, entry, alias);
    HitFacts(was, child, hit);
    FoundSlot(was, child);
    BaseExtends(was, base, per, at, |entry|);
    NotInRun(was, base, at, |entry|, k, child);
    FitRoom(base, at, |entry|);
    if k < at {
      KeptBefore(was, base, at, entry, k);
    } else {
      KeptAfter(was, base, at, entry, k);
    }
    SameRun(was, Placed(Sealed(base, at + |entry|), at, entry), k, hit.run);
  }

  lemma {:induction false} HitFacts(slots: seq<Slot>, child: Name, hit: Hit)
    requires HitAt(slots, child, hit)
    ensures Found(slots, child) == Some(hit.at) && hit.at < |slots| && RunPositions(slots, hit.at, hit.run)
    ensures Live(slots, hit.at) && IsShort(slots[hit.at]) && hit.item == ItemOf(slots[hit.at])
  {
    hide Found;
    FoundSlot(slots, child);
  }

  lemma {:induction false} EntryFilled(was: seq<Slot>, name: Name, attr: Byte, it: Item, entry: seq<Slot>, alias: Name)
    requires it.first < TWO32 && it.size < TWO32 && |name| <= LFN_SLOTS * LFN_CHARS
      && NewEntry(was, name, attr, it, entry, alias)
    ensures |entry| > 0
  {
  }

  lemma {:induction false} NewEntryForm(was: seq<Slot>, name: Name, attr: Byte, it: Item, entry: seq<Slot>, alias: Name)
    requires it.first < TWO32 && it.size < TWO32 && |name| <= LFN_SLOTS * LFN_CHARS
      && NewEntry(was, name, attr, it, entry, alias)
    requires Ascii(name) && Legal(name) && EntryAttr(attr)
    ensures EntryForm(entry)
  {
    hide Legal, Ascii, Is83, Known, Matches, Make83, EntrySet, ShortFor, ItemOf, Found, EntryAttr, EntryForm;
    EntrySetForm(name, Make83(alias), alias, attr, it, name);
  }

  lemma {:induction false} BaseExtends(was: seq<Slot>, base: seq<Slot>, per: nat, at: nat, need: nat)
    requires Fitted(was, base, per, at, need)
    ensures Extends(base, was)
  {
    hide Zeros, FirstFit;
  }

  lemma {:induction false} SameRun(a: seq<Slot>, b: seq<Slot>, k: nat, run: seq<nat>)
    requires k <= |a| && k <= |b| && Block(a, k) == Block(b, k) && RunPositions(a, k, run)
    ensures RunPositions(b, k, run)
  {
    hide Block;
  }

  lemma {:induction false} KeptBefore(was: seq<Slot>, base: seq<Slot>, at: nat, entry: seq<Slot>, k: nat)
    requires Extends(base, was) && at + |entry| <= |base| && k < |was| && k < at
    ensures Block(Placed(Sealed(base, at + |entry|), at, entry), k) == Block(was, k)
  {
    hide Block, AccAt;
    var s := Sealed(base, at + |entry|);
    SealedBefore(base, at + |entry|);
    var c := Placed(s, at, entry);
    assert base[..k] == base[..|was|][..k] == was[..k];
    assert c[..k] == base[..k] by {
      assert forall j :: 0 <= j < k ==> c[j] == s[..at + |entry|][j] == base[..at + |entry|][j];
    }
    BlockPrefix(c, was, k);
  }

  lemma {:induction false} SealedBefore(base: seq<Slot>, e: nat)
    requires e <= |base|
    ensures Sealed(base, e)[..e] == base[..e]
  {
  }

  lemma {:induction false} KeptAfter(was: seq<Slot>, base: seq<Slot>, at: nat, entry: seq<Slot>, k: nat)
    requires Extends(base, was) && FirstFit(base, at, |entry|) && EntryForm(entry) && k < |was| && Live(was, k)
      && at + |entry| <= k
    ensures at + |entry| <= |base|
    ensures Block(Placed(Sealed(base, at + |entry|), at, entry), k) == Block(was, k)
  {
    hide Block, AccAt, FirstFit, Live, Sealed, IsLfn, Placed;
    var e := at + |entry| - 1;
    FitRoomFree(base, at, |entry|);
    assert base[..k + 1] == base[..|was|][..k + 1] == was[..k + 1];
    assert base[..k] == base[..k + 1][..k] == was[..k + 1][..k] == was[..k];
    LivePrefix(base, was, k);
    SealedLive(base, at + |entry|, k);
    var c := Placed(base, at, entry);
    assert c[e] == entry[|entry| - 1];
    BlockPrefix(base, was, k);
    ShortNotLfn(c[e]);
    BlockAfter(base, c, e, k);
  }

  lemma {:induction false} ShortNotLfn(d: Slot)
    requires IsShort(d)
    ensures !IsLfn(d)
  {
  }

  lemma {:induction false} SealedLive(base: seq<Slot>, e: nat, k: nat)
    requires k < |base| && Live(base, k) && e <= k
    ensures Sealed(base, e) == base
  {
  }

  lemma {:induction false} FitRoomFree(base: seq<Slot>, at: nat, need: nat)
    requires FirstFit(base, at, need) && need > 0
    ensures at + need <= |base| && !IsLfn(base[at + need - 1])
  {
  }

  lemma {:induction false} LongEnd(a: seq<Slot>, base: seq<Slot>, per: nat, at: nat, entry: seq<Slot>, name: Name,
      attr: Byte, alias: Name, k: nat, child: Name)
    requires Tidy(a) && Fitted(a, base, per, at, |entry|) && Ascii(name) && Legal(name) && EntryAttr(attr)
    requires k < |a| && a[k][11] == attr && |name| <= LFN_SLOTS * LFN_CHARS
      && NewEntry(a, name, attr, ItemOf(a[k]), entry, alias)
    requires Found(a, Known(name)).None? && Found(a, child) == Some(k)
    ensures at + |entry| <= |base| && k < |base|
    ensures Renamed(a, Marked(Placed(Sealed(base, at + |entry|), at, entry), k), k, at + |entry| - 1, name, alias)
  {
    hide *;
    FittedTidy(a, base, per, at, |entry|);
    RenameLongDone(a, base, per, at, entry, name, attr, alias, k, child);
  }

  lemma {:induction false} LongSafe(a: seq<Slot>, base: seq<Slot>, per: nat, at: nat, entry: seq<Slot>, name: Name,
      attr: Byte, alias: Name, k: nat, child: Name, log: seq<seq<Slot>>, from: nat, mid: nat)
    requires Tidy(a) && Fitted(a, base, per, at, |entry|) && Ascii(name) && Legal(name) && EntryAttr(attr)
    requires k < |a| && a[k][11] == attr && |name| <= LFN_SLOTS * LFN_CHARS
      && NewEntry(a, name, attr, ItemOf(a[k]), entry, alias)
    requires Found(a, Known(name)).None? && Found(a, child) == Some(k)
    requires at + |entry| <= |base| && k < |base|
    requires forall i :: from <= i < mid && i < |log| ==> Writing(log[i], a, base, at, entry)
    requires forall i :: mid <= i < |log| ==> Marking(log[i], Placed(Sealed(base, at + |entry|), at, entry), k)
    ensures RenameSafe(a, child, name, log, from)
  {
    hide Tidy, Fitted, Ascii, Legal, EntryAttr, NewEntry, Found, Writing, Marking, Placed, Sealed, Known, ItemOf,
      Resolves, Is83;
    FittedTidy(a, base, per, at, |entry|);
    RenameLongDone(a, base, per, at, entry, name, attr, alias, k, child);
    var it := ItemOf(a[k]);
    var c := Placed(base, at, entry);
    FoundShort(a, child);
    forall i | from <= i < |log|
      ensures Resolves(log[i], child, it) || Resolves(log[i], Known(name), it)
    {
      if i < mid {
        WritingKeeps(a, base, per, at, entry, name, attr, it, alias, log[i], child);
        ResolvesTo(log[i], child, k);
      } else {
        MarkingKeeps(c, k, log[i], Known(name), it);
      }
    }
  }

  lemma {:induction false} FoundShort(slots: seq<Slot>, child: Name)
    requires Found(slots, child).Some?
    ensures
      var k := Found(slots, child).value;
      k < |slots| && IsShort(slots[k])
  {
    hide Found;
    FoundSlot(slots, child);
  }

  lemma {:induction false} ResolvesTo(l: seq<Slot>, x: Name, k: nat)
    requires Found(l, x) == Some(k) && k < |l|
    ensures Resolves(l, x, ItemOf(l[k]))
  {
    hide Found;
  }

  // ---- Which positions hold entries -----------------------------------------------------------------------

  /** The two entries by which a directory names itself and its parent. */
  predicate DotSlot(d: Slot) { d[0] == DOT }

  /** Position i holds an entry before the end mark. */
  predicate EntryIn(slots: seq<Slot>, i: nat) { i < |slots| && Live(slots, i) && IsShort(slots[i]) }

  /** Position i holds what it held. */
  predicate SameEntry(a: seq<Slot>, b: seq<Slot>, i: nat) {
    (EntryIn(b, i) <==> EntryIn(a, i)) && (EntryIn(a, i) ==> i < |a| && i < |b| && b[i] == a[i])
  }

  ghost predicate OthersSame(a: seq<Slot>, b: seq<Slot>, k: nat) { forall i: nat :: i != k ==> SameEntry(a, b, i) }

  /** One entry more, at position e. */
  ghost predicate AddedEntry(a: seq<Slot>, b: seq<Slot>, e: nat) {
    Tidy(b) && EntryIn(b, e) && !EntryIn(a, e) && OthersSame(a, b, e)
  }

  /** The entry at position k is gone. */
  ghost predicate RemovedEntry(a: seq<Slot>, b: seq<Slot>, k: nat) {
    Tidy(b) && EntryIn(a, k) && !EntryIn(b, k) && OthersSame(a, b, k)
  }

  /** The entry at position k is now at position e, with its content. */
  ghost predicate MovedEntry(a: seq<Slot>, b: seq<Slot>, k: nat, e: nat) {
    && Tidy(b) && EntryIn(a, k) && EntryIn(b, e) && k < |a| && e < |b| && ItemOf(b[e]) == ItemOf(a[k]) && !DotSlot(b[e])
    && (e != k ==> !EntryIn(a, e) && !EntryIn(b, k))
    && forall i: nat :: i != k && i != e ==> SameEntry(a, b, i)
  }

  lemma {:induction false} PlacedIn(a: seq<Slot>, p: nat, entry: seq<Slot>)
    requires Tidy(a) && EntryForm(entry) && Fit(a, p, |entry|)
    ensures p + |entry| <= |a| && AddedEntry(a, Placed(a, p, entry), p + |entry| - 1)
    ensures Placed(a, p, entry)[p + |entry| - 1] == entry[|entry| - 1]
  {
    FormLength(entry);
    PlacedTidy(a, p, entry);
    var b, e := Placed(a, p, entry), p + |entry| - 1;
    FormShort(entry);
    PlacedFilled(a, p, entry);
    hide EntryForm, IsShort;
    forall i: nat | i != e
      ensures SameEntry(a, b, i)
    {
      PlacedElsewhere(a, p, entry, i);
    }
    assert b[e] == entry[|entry| - 1];
    FreeShort(a[e]);
    hide Tidy, Placed, SameEntry;
  }

  lemma {:induction false} FreeShort(d: Slot)
    ensures Free(d) || IsLfn(d) ==> !IsShort(d)
    ensures IsShort(d) ==> d[0] != 0
  {
  }

  lemma {:induction false} FormShort(entry: seq<Slot>)
    requires EntryForm(entry)
    ensures IsShort(entry[|entry| - 1]) && forall i :: 0 <= i < |entry| ==> entry[i][0] != 0
  {
    assert forall i :: 0 <= i < |entry| - 1 ==> IsLfn(entry[i]);
  }

  lemma {:induction false} PlacedFilled(a: seq<Slot>, p: nat, entry: seq<Slot>)
    requires p + |entry| <= |a| && forall j :: 0 <= j < p ==> a[j][0] != 0
    requires forall i :: 0 <= i < |entry| ==> entry[i][0] != 0
    ensures forall j :: 0 <= j < p + |entry| ==> Placed(a, p, entry)[j][0] != 0
  {
  }

  lemma {:induction false} PlacedElsewhere(a: seq<Slot>, p: nat, entry: seq<Slot>, i: nat)
    requires Tidy(a) && EntryForm(entry) && Fit(a, p, |entry|) && p + |entry| <= |a| && i != p + |entry| - 1
    requires forall j :: p <= j < p + |entry| ==> Free(a[j])
    ensures SameEntry(a, Placed(a, p, entry), i)
  {
    hide Tidy, Free, IsShort, Live, EntryForm;
    var b := Placed(a, p, entry);
    if i < p {
      assert b[..i + 1] == a[..i + 1];
      LivePrefix(a, b, i);
    } else if i < p + |entry| - 1 {
      FormLfn(entry, i - p);
      FreeShort(b[i]);
      FreeShort(a[i]);
    } else if i < |a| {
      assert entry[..|entry|] == entry;
      PlacedLive(a, p, entry, |entry|, i);
    }
  }

  /** Empty slots behind a directory hold no entries. */
  lemma {:induction false} GrownIn(a: seq<Slot>, z: seq<Slot>, i: nat)
    requires AllZero(z)
    ensures SameEntry(a, a + z, i)
  {
    var b := a + z;
    if i < |a| {
      assert b[..i + 1] == a[..i + 1];
      LivePrefix(a, b, i);
    } else if i < |b| {
      assert b[i] == z[i - |a|];
    }
  }

  /** What creation does to the entries: the new one is there with its content, no name of it starts with
      a dot, and all others are where they were. */
  lemma {:induction false} CreatedIn(was: seq<Slot>, base: seq<Slot>, per: nat, at: nat, entry: seq<Slot>, name: Name,
      attr: Byte, it: Item, alias: Name)
    requires Tidy(was) && Fitted(was, base, per, at, |entry|) && Ascii(name) && Legal(name) && EntryAttr(attr)
    requires it.first < TWO32 && it.size < TWO32 && |name| <= LFN_SLOTS * LFN_CHARS
      && NewEntry(was, name, attr, it, entry, alias)
    ensures at + |entry| <= |base|
    ensures
      var c, e := Placed(Sealed(base, at + |entry|), at, entry), at + |entry| - 1;
      && e < |c| && AddedEntry(was, c, e) && !DotSlot(c[e]) && c[e][11] == attr
      && ItemOf(c[e]).first == it.first && ItemOf(c[e]).size == it.size
  {
    hide Legal, Ascii, Is83, Make83, EntryForm, Tidy, FirstFit, Zeros, EntrySet, Sealed, Extends, SameName, EntryAttr,
      ItemOf, Placed, Live, IsShort, Parse83;
    FitRoom(base, at, |entry|);
    FittedTidy(was, base, per, at, |entry|);
    EntrySetForm(name, Make83(alias), alias, attr, it, name);
    EntryFirst(name, Make83(alias), attr, it);
    FirstIsFit(base, at, |entry|);
    PlacedIn(base, at, entry);
    forall i: nat
      ensures SameEntry(was, base, i)
    {
      if base != was {
        GrownIn(was, Zeros(per), i);
      }
    }
    var c, e := Placed(base, at, entry), at + |entry| - 1;
    assert SameEntry(was, base, e);
    forall i: nat | i != e
      ensures SameEntry(was, c, i)
    {
      assert SameEntry(was, base, i) && SameEntry(base, c, i);
    }
    assert !DotSlot(c[e]);
    assert c[e][11] == attr;
  }

  /** Creation in the end of a directory, with no end mark before it: seen from the whole directory too, one
      entry is there that was not. */
  lemma {:induction false} TailIn(a: seq<Slot>, p: nat, base: seq<Slot>, per: nat, at: nat, entry: seq<Slot>,
      name: Name, attr: Byte, it: Item, alias: Name)
    requires Tidy(a) && p <= |a| && forall i :: 0 <= i < p ==> a[i][0] != 0
    requires Fitted(a[p..], base, per, at, |entry|) && Ascii(name) && Legal(name) && EntryAttr(attr)
    requires it.first < TWO32 && it.size < TWO32 && |name| <= LFN_SLOTS * LFN_CHARS
      && NewEntry(a[p..], name, attr, it, entry, alias)
    ensures at + |entry| <= |base|
    ensures
      var c, e := a[..p] + Placed(Sealed(base, at + |entry|), at, entry), p + at + |entry| - 1;
      && e < |c| && AddedEntry(a, c, e) && !DotSlot(c[e]) && c[e][11] == attr
      && ItemOf(c[e]).first == it.first && ItemOf(c[e]).size == it.size
  {
    hide Legal, Ascii, Is83, Make83, EntryForm, Tidy, Zeros, EntrySet, Sealed, SameName, EntryAttr, ItemOf, Live,
      IsShort, Parse83, Fitted, Placed, AddedEntry, SameEntry;
    TailTidy(a, p);
    FittedTidy(a[p..], base, per, at, |entry|);
    FittedFit(a[p..], base, per, at, |entry|);
    EntrySetForm(name, Make83(alias), alias, attr, it, name);
    EntryFirst(name, Make83(alias), attr, it);
    var whole := a[..p] + base;
    WholeTidy(a, p, base, per, at, |entry|);
    WholeFit(a[..p], base, at, |entry|);
    PlacedIn(whole, p + at, entry);
    PlacedBehind(a[..p], base, at, entry);
    var c, e := Placed(whole, p + at, entry), p + at + |entry| - 1;
    AddedWhole(a, whole, c, e);
  }

  lemma {:induction false} AddedWhole(a: seq<Slot>, whole: seq<Slot>, c: seq<Slot>, e: nat)
    requires AddedEntry(whole, c, e) && forall i: nat :: SameEntry(a, whole, i)
    ensures AddedEntry(a, c, e)
  {
    hide Tidy, EntryIn;
    assert SameEntry(a, whole, e);
    forall i: nat | i != e
      ensures SameEntry(a, c, i)
    {
      assert SameEntry(a, whole, i) && SameEntry(whole, c, i);
    }
  }

  lemma {:induction false} FittedFit(was: seq<Slot>, base: seq<Slot>, per: nat, at: nat, need: nat)
    requires Tidy(was) && Fitted(was, base, per, at, need)
    ensures Fit(base, at, need) && (base == was || base == was + Zeros(per))
  {
    hide Tidy, FirstFit;
    FittedTidy(was, base, per, at, need);
    FirstIsFit(base, at, need);
  }

  lemma {:induction false} WholeFit(front: seq<Slot>, base: seq<Slot>, at: nat, need: nat)
    requires Fit(base, at, need) && forall i :: 0 <= i < |front| ==> front[i][0] != 0
    ensures Fit(front + base, |front| + at, need)
  {
    hide Free;
    forall j | |front| + at <= j < |front| + at + need
      ensures Free((front + base)[j])
    {
      assert (front + base)[j] == base[j - |front|];
    }
  }

  lemma {:induction false} PlacedBehind(front: seq<Slot>, base: seq<Slot>, at: nat, entry: seq<Slot>)
    requires at + |entry| <= |base|
    ensures Placed(front + base, |front| + at, entry) == front + Placed(base, at, entry)
  {
  }

  /** The whole directory, grown or not. */
  lemma {:induction false} WholeTidy(a: seq<Slot>, p: nat, base: seq<Slot>, per: nat, at: nat, need: nat)
    requires Tidy(a) && p <= |a| && (base == a[p..] || base == a[p..] + Zeros(per))
    ensures Tidy(a[..p] + base) && forall i: nat :: SameEntry(a, a[..p] + base, i)
  {
    hide Tidy, Zeros, SameEntry;
    if base == a[p..] {
      assert a[..p] + base == a;
      forall i: nat
        ensures SameEntry(a, a, i)
      {
        SameSelf(a, i);
      }
    } else {
      assert a[..p] + base == a + Zeros(per);
      ZeroTidy(a, Zeros(per));
      forall i: nat
        ensures SameEntry(a, a + Zeros(per), i)
      {
        GrownIn(a, Zeros(per), i);
      }
    }
  }

  lemma {:induction false} SameSelf(a: seq<Slot>, i: nat)
    ensures SameEntry(a, a, i)
  {
  }

  lemma {:induction false} TailTidy(a: seq<Slot>, p: nat)
    requires Tidy(a) && p <= |a|
    ensures Tidy(a[p..])
  {
    var b := a[p..];
    assert forall i :: 0 <= i < |b| ==> b[i] == a[p + i];
    hide Free, IsLfn;
    forall i | 0 <= i < |b| && IsLfn(b[i])
      ensures i + 1 < |b| && !Free(b[i + 1])
    {
      assert IsLfn(a[p + i]);
    }
    forall k: nat | k <= |b|
      ensures Block(b, k) <= LFN_SLOTS
    {
      TailBlock(a, p, k);
      assert Block(a, p + k) <= LFN_SLOTS;
    }
  }

  lemma {:induction false} TailBlock(a: seq<Slot>, p: nat, k: nat)
    requires p <= |a| && k <= |a| - p
    ensures Block(a[p..], k) <= Block(a, p + k)
  {
    hide IsLfn;
    if k > 0 {
      assert a[p..][k - 1] == a[p + k - 1];
      TailBlock(a, p, k - 1);
    }
  }

  lemma {:induction false} EntryFirst(name: Name, short: seq<Byte>, attr: Byte, it: Item)
    requires |short| == 11 && it.first < TWO32 && it.size < TWO32 && |name| <= LFN_SLOTS * LFN_CHARS
    ensures var s := EntrySet(name, short, attr, it); s[|s| - 1][0] == short[0]
  {
    hide Is83, Checksum, LfnRun;
    EntryParts(name, short, attr, it);
  }

  /** What deletion does to the entries. */
  lemma {:induction false} MarkedIn(a: seq<Slot>, k: nat)
    requires Tidy(a) && EntryIn(a, k)
    ensures RemovedEntry(a, Marked(a, k), k)
  {
    hide Live, IsShort, Marked, Erased;
    BlockBound(a, k);
    hide Tidy;
    MarkedErased(a, k);
    ErasedTidy(a, k, k + 1);
    forall i: nat | i != k
      ensures SameEntry(a, Marked(a, k), i)
    {
      ErasedIn(a, k, k + 1, i);
    }
    RetiredShort(a[k]);
  }

  lemma {:induction false} RetiredShort(d: Slot)
    ensures !IsShort(Retired(d))
  {
  }

  lemma {:induction false} ErasedIn(a: seq<Slot>, k: nat, t: nat, i: nat)
    requires k < |a| && IsShort(a[k]) && k - Block(a, k) <= t <= k + 1 && i != k
    ensures SameEntry(a, Erased(a, k - Block(a, k), t), i)
  {
    hide Live, IsShort, Erased, IsLfn, Block;
    var f := k - Block(a, k);
    var b := Erased(a, f, t);
    if i < |a| {
      BlockLive(a, k);
      LiveErased(a, b, f, t, i);
      if f <= i < k {
        FreeShort(a[i]);
        if i < t {
          RetiredShort(a[i]);
        }
      }
    }
  }

  /** What an in-place rename does to the entries. */
  lemma {:induction false} NamedIn(a: seq<Slot>, k: nat, name: Name)
    requires Tidy(a) && EntryIn(a, k) && Is83(name)
    ensures
      var b := a[k := Named(a[k], Make83(name))];
      MovedEntry(a, Erased(b, k - Block(b, k), k), k, k)
  {
    hide Make83, Is83, Tidy, Live, Erased, Block, IsShort, Parse83, SameName, ItemOf;
    NamedEntry(a[k], name);
    Is83Short(name);
    FreeShort(a[k]);
    var d := Named(a[k], Make83(name));
    var b := a[k := d];
    NamedTidy(a, k, d);
    LiveSame(a, b, k);
    ErasedTidy(b, k, k);
    var c := Erased(b, k - Block(b, k), k);
    BlockLive(b, k);
    LiveErased(b, c, k - Block(b, k), k, k);
    assert c[k] == d;
    hide Named;
    forall i: nat | i != k
      ensures SameEntry(a, c, i)
    {
      ErasedIn(b, k, k, i);
      if i < |a| {
        LiveSame(a, b, i);
      }
    }
  }

  lemma {:induction false} InPlaceIn(a: seq<Slot>, k: nat, name: Name, run: seq<nat>)
    requires Tidy(a) && k < |a| && Live(a, k) && IsShort(a[k]) && Is83(name) && RunPositions(a, k, run)
    ensures
      var b := a[k := Named(a[k], Make83(name))];
      var f := k - Block(b, k);
      f + |run| <= k ==> MovedEntry(a, Erased(b, f, f + |run|), k, k)
  {
    hide Is83, Make83, Named, Erased, Live, IsShort, ItemOf;
    RenamedRun(a, k, name, run);
    NamedIn(a, k, name);
    BlockBound(a, k);
    hide Tidy, Block;
    RenamedBlock(a, k, name);
  }

  /** What a rename to a long name does to the entries. */
  lemma {:induction false} LongIn(a: seq<Slot>, base: seq<Slot>, per: nat, at: nat, entry: seq<Slot>, name: Name,
      attr: Byte, alias: Name, k: nat)
    requires Tidy(a) && Fitted(a, base, per, at, |entry|) && Ascii(name) && Legal(name) && EntryAttr(attr)
    requires k < |a| && EntryIn(a, k) && a[k][11] == attr && |name| <= LFN_SLOTS * LFN_CHARS
      && NewEntry(a, name, attr, ItemOf(a[k]), entry, alias)
    ensures at + |entry| <= |base| && |entry| > 0
    ensures
      var c := Placed(Sealed(base, at + |entry|), at, entry);
      k < |c| && MovedEntry(a, Marked(c, k), k, at + |entry| - 1)
  {
    hide Tidy, Fitted, Ascii, Legal, EntryAttr, NewEntry, Placed, Sealed, ItemOf, Live, IsShort, Marked;
    EntryFilled(a, name, attr, ItemOf(a[k]), entry, alias);
    CreatedIn(a, base, per, at, entry, name, attr, ItemOf(a[k]), alias);
    var c, e := Placed(Sealed(base, at + |entry|), at, entry), at + |entry| - 1;
    assert SameEntry(a, c, k);
    MarkedIn(c, k);
    var m := Marked(c, k);
    assert SameEntry(c, m, e);
    SameItem(c[e], a[k]);
    forall i: nat | i != k && i != e
      ensures SameEntry(a, m, i)
    {
      assert SameEntry(a, c, i) && SameEntry(c, m, i);
    }
  }

  /** What rewriting the content of an entry does. */
  lemma {:induction false} RewrittenIn(a: seq<Slot>, k: nat, d: Slot)
    requires Tidy(a) && EntryIn(a, k) && d[..12] == a[k][..12]
    ensures Tidy(a[k := d]) && EntryIn(a[k := d], k) && d[0] == a[k][0] && OthersSame(a, a[k := d], k)
  {
    assert d[0] == d[..12][0] == a[k][..12][0] && d[11] == d[..12][11] == a[k][..12][11];
    hide Tidy, Live;
    NamedTidy(a, k, d);
    forall i: nat | i < |a|
      ensures Live(a[k := d], i) <==> Live(a, i)
    {
      LiveSame(a, a[k := d], i);
    }
  }

  /** Slots come in whole sectors, and every cluster has room for `per` of them. */
  predicate SlotSized(per: nat, total: nat, heap: seq<seq<Slot>>) {
    && per >= SECTOR_SLOTS && per % SECTOR_SLOTS == 0 && |heap| == total
    && forall c :: 0 <= c < |heap| ==> |heap[c]| == per
  }

  /** The slots fill the clusters of chain `key` but for the first `skip`; the chain ends with cluster `last`. */
  predicate Backed(own: ExfatSpace.Owners, key: nat, skip: nat, last: nat, slots: nat, per: nat) {
    && key in own && skip < |own[key].chain|
    && last == own[key].chain[|own[key].chain| - 1] && slots == (|own[key].chain| - skip) * per
  }

  ghost predicate AllUsed(view: seq<nat>) { forall c :: 2 <= c < |view| ==> view[c] != 0 }

  /** One more cluster for chain k. */
  ghost predicate AddedTo(own: ExfatSpace.Owners, own': ExfatSpace.Owners, k: nat, c: nat)
    requires k in own
  {
    c !in own && 2 <= c && own' == own[k := own[k].(chain := own[k].chain + [c])]
  }

  /** The owners after the directory with chain k has grown or not. */
  ghost predicate GrewTo(own: ExfatSpace.Owners, own': ExfatSpace.Owners, k: nat, grown: bool) {
    if grown then k in own && exists c :: AddedTo(own, own', k, c) else own' == own
  }

  lemma {:induction false} TableSize(table: Table)
    requires table.Ready()
    ensures table.copies != [] && |table.Chains()| == table.total
  {
  }

  lemma {:induction false} BackedOwned(own: ExfatSpace.Owners, k: nat, skip: nat, last: nat, slots: nat, per: nat)
    requires Backed(own, k, skip, last, slots, per)
    ensures k in own && own[k].chain != [] && last == own[k].chain[|own[k].chain| - 1]
  {
  }

  lemma {:induction false} GrewNot(own: ExfatSpace.Owners, k: nat)
    ensures GrewTo(own, own, k, false)
  {
  }

  lemma {:induction false} GrewSame(own: ExfatSpace.Owners, own': ExfatSpace.Owners, k: nat)
    requires GrewTo(own, own', k, false)
    ensures own' == own
  {
  }

  lemma {:induction false} BackedMore(own: ExfatSpace.Owners, own': ExfatSpace.Owners, k: nat, skip: nat, c: nat,
      last: nat, slots: nat, per: nat)
    requires Backed(own, k, skip, last, slots, per) && AddedTo(own, own', k, c)
    ensures Backed(own', k, skip, c, slots + per, per) && GrewTo(own, own', k, true)
  {
    assert (|own[k].chain| - skip + 1) * per == (|own[k].chain| - skip) * per + per;
  }

  class Directory {
    /** The FAT16 root cannot grow. */
    const fixed: bool
    /** Slots in a cluster. */
    const perCluster: nat
    /** The slots of the directory's sectors, in order. */
    var slots: seq<Slot>
    /** The allocation table, the directory's last cluster, and what each cluster holds before it is zeroed. */
    const table: Table
    var last: nat
    const heap: seq<seq<Slot>>
    /** Whose chain it is, and how many clusters of it lie before the first slot. */
    ghost const key: nat
    ghost const skip: nat
    /** The directory after each sector write so far. */
    ghost var log: seq<seq<Slot>>

    /** A directory as it is found on the volume. */
    constructor On(fixed: bool, perCluster: nat, slots: seq<Slot>, table: Table, last: nat, heap: seq<seq<Slot>>,
        ghost key: nat, ghost skip: nat)
      requires SlotSized(perCluster, table.total, heap) && table.Ready()
        && (fixed || Backed(table.own, key, skip, last, |slots|, perCluster))
      ensures Valid() && this.slots == slots && this.fixed == fixed && this.perCluster == perCluster
        && this.table == table && this.key == key && this.skip == skip
      ensures log == []
    {
      this.fixed, this.perCluster, this.slots := fixed, perCluster, slots;
      this.table, this.last, this.heap, this.key, this.skip := table, last, heap, key, skip;
      log := [];
    }

    ghost predicate Valid()
      reads this, table
    {
      SlotSized(perCluster, table.total, heap) && table.Ready()
        && (fixed || Backed(table.own, key, skip, last, |slots|, perCluster))
    }

    /** No cluster can be added: the directory is the fixed root, or every cluster is in use. */
    ghost predicate Stuck()
      reads this, table
      requires table.copies != []
    {
      fixed || AllUsed(table.Chains())
    }

    /** One sector write that changes one slot. */
    method Put(i: nat, d: Slot)
      requires i < |slots|
      modifies `slots, `log
      ensures slots == old(slots)[i := d] && log == old(log) + [slots]
    {
      slots := slots[i := d];
      log := log + [slots];
    }

    /** fat_locate_entry */
    method Locate(name: Name) returns (hit: Option<Hit>)
      ensures hit.None? <==> Found(slots, name).None?
      ensures hit.Some? ==> HitAt(slots, name, hit.value)
    {
      hide Matches, AccAt, RunPositions, Found, Shows, Block;
      var acc: seq<Slot>, run: seq<nat>, i := [], [], 0;
      Discard(slots, 0);
      while i < |slots| && slots[i][0] != 0
        invariant i <= |slots| && (forall j :: 0 <= j < i ==> slots[j][0] != 0)
        invariant acc == AccAt(slots, i) && RunPositions(slots, i, run)
        invariant forall j: nat :: j < i ==> !Shows(slots, j, name)
      {
        var d := slots[i];
        if d[0] == FREE_MARK {
          acc, run := [], [];
          Discard(slots, i + 1);
          Passed(slots, i, name);
        } else if d[11] == ATTR_LFN {
          Collect(slots, i, run);
          Passed(slots, i, name);
          if |acc| < LFN_SLOTS {
            acc, run := acc + [d], run + [i];
          }
        } else {
          if IsShort(d) {
            if Matches(d, acc, name) {
              Seen(slots, i, name);
              return Some(Hit(i, run, ItemOf(d)));
            }
          }
          acc, run := [], [];
          Discard(slots, i + 1);
          Passed(slots, i, name);
        }
        i := i + 1;
      }
      Unseen(slots, i, name);
      hit := None;
    }

    /** One more cluster in the chain; 0 when none is free. */
    method Link() returns (c: nat)
      requires Valid() && !fixed
      modifies `last, table`copies, table`allocHint, table`own, table`at
      ensures (c != 0 ==> c < |heap|) && table.Ready() && SlotSized(perCluster, table.total, heap)
        && |table.copies| == |old(table.copies)|
      ensures GrewTo(old(table.own), table.own, key, c != 0)
      ensures c == 0 ==>
        && Valid() && last == old(last) && table.copies == old(table.copies) && table.at == old(table.at)
        && Stuck()
      ensures c != 0 ==> !old(Stuck())
      ensures c != 0 ==> Backed(table.own, key, skip, last, |slots| + perCluster, perCluster)
    {
      hide Table.Ready, Backed, GrewTo, View;
      BackedOwned(table.own, key, skip, last, |slots|, perCluster);
      TableSize(table);
      c := table.ExtendChain(last, key);
      if c == 0 {
        GrewNot(table.own, key);
      } else {
        BackedMore(old(table.own), table.own, key, skip, c, last, |slots|, perCluster);
        assert old(table.Chains())[c] == 0;
        last := c;
      }
    }

    /** Append a cluster to the directory: it is linked first and zeroed afterwards, sector by sector. */
    method Grow() returns (ok: bool)
      requires Valid() && !fixed
      modifies `slots, `last, `log, table`copies, table`allocHint, table`own, table`at
      ensures Valid() && |table.copies| == |old(table.copies)| && GrewTo(old(table.own), table.own, key, ok)
      ensures !ok ==> table.copies == old(table.copies) && table.own == old(table.own) && table.at == old(table.at)
      ensures !ok ==> slots == old(slots) && log == old(log) && Stuck()
      ensures ok ==> slots == old(slots) + Zeros(perCluster) && !old(Stuck())
      ensures |old(log)| <= |log| && log[..|old(log)|] == old(log)
      ensures forall i :: |old(log)| <= i < |log| ==> Extends(log[i], old(slots))
    {
      hide Table.Ready, Zeros, Backed, GrewTo, View, AllUsed;
      ghost var log0 := log;
      var was := slots;
      var c := Link();
      if c == 0 {
        GrewSame(old(table.own), table.own, key);
        return false;
      }
      var n := 0;
      slots := was + heap[c];
      log := log + [slots];
      while n < perCluster
        modifies `slots, `log
        invariant n <= perCluster && n % SECTOR_SLOTS == 0
        invariant |slots| == |was| + perCluster && slots[..|was|] == was
        invariant forall k :: |was| <= k < |was| + n ==> slots[k] == ZERO_SLOT
        invariant |log0| <= |log| && log[..|log0|] == log0
        invariant forall i :: |log0| <= i < |log| ==> Extends(log[i], was)
      {
        var at := |was| + n;
        slots := slots[..at] + Zeros(SECTOR_SLOTS) + slots[at + SECTOR_SLOTS..];
        log := log + [slots];
        n := n + SECTOR_SLOTS;
      }
      assert slots == was + Zeros(perCluster);
      return true;
    }

    /** fat_find_free_run: the first `need` free slots in a row, growing the directory if it has none. */
    method FindFreeRun(need: nat) returns (ok: bool, start: nat, ghost base: seq<Slot>, ghost grown: bool)
      requires Valid() && 1 <= need <= SET_MAX
      modifies `slots, `last, `log, table`copies, table`allocHint, table`own, table`at
      ensures Valid() && |table.copies| == |old(table.copies)| && GrewTo(old(table.own), table.own, key, grown)
        && (grown ==> !fixed)
      ensures !grown ==> table.copies == old(table.copies) && table.own == old(table.own) && table.at == old(table.at)
      ensures |old(log)| <= |log| && log[..|old(log)|] == old(log)
      ensures !ok ==> !grown && slots == old(slots) && log == old(log) && Stuck() && NoRoom(slots, need)
      ensures grown ==> !old(Stuck())
      ensures ok ==>
        && base == (if grown then old(slots) + Zeros(perCluster) else old(slots))
        && FirstFit(base, start, need) && slots == Sealed(base, start + need)
      ensures ok ==> forall i :: |old(log)| <= i < |log| ==> Extends(log[i], old(slots)) || log[i] == slots
    {
      hide FirstFit, Sealed, Zeros, NoRoom, Extends, AllZero, Scanning, Table.Ready, Backed, GrewTo, AllUsed, View;
      TableSize(table);
      ghost var was, log0 := slots, log;
      grown := false;
      GrewNot(table.own, key);
      var i, run, term := 0, 0, false;
      ScanStart(slots, need);
      while true
        invariant Valid() && |table.copies| == |old(table.copies)| && GrewTo(old(table.own), table.own, key, grown)
          && (grown ==> !fixed)
        invariant !grown ==>
          && table.copies == old(table.copies) && table.own == old(table.own)
          && table.at == old(table.at)
        invariant i <= |slots| && run < need && Scanning(slots, i, run, need, term)
        invariant slots == if grown then was + Zeros(perCluster) else was
        invariant grown ==> !fixed && i >= |was| && run >= i - |was| && !old(Stuck())
        invariant !grown ==> log == log0
        invariant |log0| <= |log| && log[..|log0|] == log0
        invariant forall j :: |log0| <= j < |log| ==> Extends(log[j], was)
        decreases !grown, |slots| - i
      {
        if i == |slots| {
          if fixed {
            ScanEnd(slots, run, need, term);
            return false, 0, slots, grown;
          }
          assert !grown;
          ScanGrown(slots, Zeros(perCluster), run, need, term);
          var more := Grow();
          if !more {
            ScanEnd(slots, run, need, term);
            return false, 0, slots, grown;
          }
          grown := true;
        }
        var first := slots[i][0];
        if first == 0 || first == FREE_MARK {
          ScanFree(slots, i, run, need, term);
          term := term || first == 0;
          run := run + 1;
          if run == need {
            start := i + 1 - need;
            base := slots;
            if term && i + 1 < |slots| && slots[i + 1][0] != 0 {
              Put(i + 1, ZERO_SLOT);
            }
            return true, start, base, grown;
          }
        } else {
          ScanUsed(slots, i, run, need, term);
          run := 0;
        }
        i := i + 1;
      }
    }

    /** fat_gen_short_alias: the first NAME~n that no entry has, 0 when all 99 are taken. */
    method GenAlias(name: Name) returns (n: nat)
      ensures n <= 99 && forall m :: 1 <= m <= (if n == 0 then 99 else n - 1) ==> Found(slots, Alias(name, m)).Some?
      ensures n > 0 ==> Found(slots, Alias(name, n)).None?
    {
      hide Found, Alias;
      n := 1;
      while n <= 99
        invariant 1 <= n <= 100
        invariant forall m :: 1 <= m < n ==> Found(slots, Alias(name, m)).Some?
      {
        var hit := Locate(Alias(name, n));
        if hit.None? {
          return n;
        }
        n := n + 1;
      }
      return 0;
    }

    /** fat_create_dirent. Returns 0; -2 when the name is illegal; -1 when no alias or no room is left. */
    method CreateDirent(name: Name, attr: Byte, it: Item)
      returns (code: int, ghost base: seq<Slot>, ghost at: nat, ghost entry: seq<Slot>, ghost alias: Name,
        ghost grown: bool)
      requires Valid() && Ascii(name) && it.first < TWO32 && it.size < TWO32
      modifies `slots, `last, `log, table`copies, table`allocHint, table`own, table`at
      ensures Valid() && |table.copies| == |old(table.copies)| && GrewTo(old(table.own), table.own, key, grown)
        && (grown ==> !fixed)
      ensures !grown ==> table.copies == old(table.copies) && table.own == old(table.own) && table.at == old(table.at)
      ensures |old(log)| <= |log| && log[..|old(log)|] == old(log)
      ensures code == -2 <==> !Legal(name)
      ensures code == 0 || ((code == -1 || code == -2) && !grown && slots == old(slots) && log == old(log))
      ensures code == -1 ==> NoAlias(slots, name) || (Stuck() && NoRoom(slots, SlotsOf(name)))
      ensures code == 0 ==> !NoAlias(old(slots), name) && !(old(Stuck()) && NoRoom(old(slots), SlotsOf(name)))
      ensures code == 0 ==>
        && NewEntry(old(slots), name, attr, it, entry, alias)
        && base == (if grown then old(slots) + Zeros(perCluster) else old(slots))
        && FirstFit(base, at, |entry|) && slots == Placed(Sealed(base, at + |entry|), at, entry)
      ensures code == 0 ==> forall i :: |old(log)| <= i < |log| ==> Writing(log[i], old(slots), base, at, entry)
      ensures code == 0 && Tidy(old(slots)) && EntryAttr(attr) && Found(old(slots), Known(name)).None? ==>
        Created(old(slots), slots, at + |entry| - 1, name, alias, attr, it)
    {
      hide Created, Tidy, Known, EntryAttr, Legal, Is83, EntrySet, Make83, Alias, Placed, Sealed, FirstFit, NoRoom,
        Writing, ShortFor, Found, LfnCount, Extends, Checksum, NoAlias, Table.Ready, Backed, GrewTo, AllUsed, View,
        SlotSized, MovedEntry;
      base, at, entry, alias, grown := slots, 0, [], [], false;
      GrewNot(table.own, key);
      ghost var was := slots;
      if !Legal(name) {
        return -2, base, at, entry, alias, grown;
      }
      LegalSlots(name);
      var short, n;
      if Is83(name) {
        short, n, alias := Make83(name), 0, name;
        Is83Short(name);
      } else {
        var k := GenAlias(name);
        if k == 0 {
          assert NoAlias(slots, name) by { AliasesGone(slots, name); }
          return -1, base, at, entry, alias, grown;
        }
        short, n, alias := Make83(Alias(name, k)), LfnCount(name), Alias(name, k);
        AliasShort(name, k);
        assert !NoAlias(slots, name) by { AliasLeft(slots, name, k); }
      }
      assert !NoAlias(slots, name) by { ShortAlias(slots, name); }
      entry := EntrySet(name, short, attr, it);
      var ok, start;
      ghost var found;
      ok, start, found, grown := FindFreeRun(n + 1);
      if !ok {
        return -1, base, at, entry, alias, grown;
      }
      base, at := found, start;
      FitRoom(base, at, n + 1);
      FitNot(base, at, n + 1);
      WritingStarts(was, base, at, entry);
      WriteSet(name, short, attr, it, n, start, was, base);
      code := 0;
      if Tidy(was) && EntryAttr(attr) && Found(was, Known(name)).None? {
        CreationDone(was, base, perCluster, at, entry, name, attr, it, alias);
      }
    }

    /** The write loop of fat_create_dirent: long-name slots, highest sequence number first, then the entry. */
    method WriteSet(name: Name, short: seq<Byte>, attr: Byte, it: Item, n: nat, start: nat, ghost was: seq<Slot>,
        ghost base: seq<Slot>)
      requires |short| == 11 && it.first < TWO32 && it.size < TWO32 && n == SlotsOf(name) - 1
      requires |name| <= LFN_SLOTS * LFN_CHARS
      requires start + n + 1 <= |slots| && |base| == |slots| && slots == Sealed(base, start + n + 1)
      modifies `slots, `log
      ensures
        var entry := EntrySet(name, short, attr, it);
        && slots == Placed(old(slots), start, entry)
        && |old(log)| <= |log| && log[..|old(log)|] == old(log)
        && forall i :: |old(log)| <= i < |log| ==> Writing(log[i], was, base, start, entry)
    {
      hide LfnRun, LfnSlot, ShortSlot, Checksum, Sealed, Is83, Placed, EntrySet, Writing, SlotsOf;
      ghost var entry := EntrySet(name, short, attr, it);
      ghost var s0, log0 := slots, log;
      EntrySlots(name, short, attr, it, n);
      PlacedNone(s0, start, entry);
      var i := 0;
      while i < n
        invariant i <= n && slots == Placed(s0, start, entry[..i])
        invariant |log0| <= |log| && log[..|log0|] == log0
        invariant forall j :: |log0| <= j < |log| ==> Writing(log[j], was, base, start, entry)
      {
        EntrySlots(name, short, attr, it, i);
        PlacedNext(s0, start, entry, i);
        WritingPart(s0, was, base, start, entry, i + 1);
        Put(start + i, LfnSlot(name, n - i, i == 0, Checksum(short)));
        i := i + 1;
      }
      PlacedNext(s0, start, entry, n);
      WritingPart(s0, was, base, start, entry, n + 1);
      Put(start + n, ShortSlot(short, attr, it.first, it.size));
      assert entry[..n + 1] == entry;
    }

    /** The loop that retires the long-name slots of an entry. */
    method EraseRun(hit: Hit)
      requires hit.at < |slots| && RunPositions(slots, hit.at, hit.run)
      modifies `slots, `log
      ensures
        var f := hit.at - Block(old(slots), hit.at);
        f + |hit.run| <= hit.at && slots == Erased(old(slots), f, f + |hit.run|)
      ensures |old(log)| <= |log| && log[..|old(log)|] == old(log)
      ensures forall i :: |old(log)| <= i < |log| ==>
        && Erasing(log[i], old(slots), hit.at)
        && Marking(log[i], old(slots), hit.at)
    {
      hide Erased, Block, Marking, RunLen, Marked, Erasing;
      ghost var s0, log0 := slots, log;
      ghost var f := hit.at - Block(slots, hit.at);
      MarkingStart(slots, hit.at, hit.run);
      var i := 0;
      while i < |hit.run|
        invariant i <= |hit.run| && slots == Erased(s0, f, f + i)
        invariant |log0| <= |log| && log[..|log0|] == log0
        invariant forall j :: |log0| <= j < |log| ==> Erasing(log[j], s0, hit.at) && Marking(log[j], s0, hit.at)
      {
        MarkingNext(s0, hit.at, hit.run, i);
        var p := hit.run[i];
        Put(p, slots[p][0 := FREE_MARK]);
        i := i + 1;
      }
    }

    /** fat_mark_deleted: the long-name slots, then the entry. */
    method MarkDeleted(hit: Hit)
      requires hit.at < |slots| && RunPositions(slots, hit.at, hit.run)
      modifies `slots, `log
      ensures slots == Marked(old(slots), hit.at)
      ensures |old(log)| <= |log| && log[..|old(log)|] == old(log)
      ensures forall i :: |old(log)| <= i < |log| ==> Marking(log[i], old(slots), hit.at)
    {
      hide Erased, Block, Marking, RunLen, Marked, Erasing;
      MarkingLast(slots, hit.at, hit.run);
      EraseRun(hit);
      Put(hit.at, slots[hit.at][0 := FREE_MARK]);
    }

    /** fat_rename to a name that fits 8.3: the name bytes are rewritten, then the old long name is retired. */
    method RenameInPlace(hit: Hit, ghost child: Name, name: Name)
      requires HitAt(slots, child, hit) && Is83(name)
      modifies `slots, `log
      ensures |slots| == |old(slots)| && (Tidy(old(slots)) ==> MovedEntry(old(slots), slots, hit.at, hit.at))
      ensures |old(log)| <= |log| && log[..|old(log)|] == old(log)
      ensures Tidy(old(slots)) && Found(old(slots), name).None? ==>
        Renamed(old(slots), slots, hit.at, hit.at, name, name) && RenameSafe(old(slots), child, name, log, |old(log)|)
    {
      hide Is83, Found, Renamed, Named, Make83, Erased, Erasing, Marking, Tidy, Block, ItemOf, RunLen, IsShort, Live,
        RenameSafe, HitAt, RunPositions;
      var k := hit.at;
      ghost var was, log0 := slots, log;
      HitFacts(slots, child, hit);
      RenamedRun(slots, k, name, hit.run);
      ghost var b := slots[k := Named(slots[k], Make83(name))];
      Put(k, Make83(name) + slots[k][11..]);
      ErasingStart(b, k);
      EraseRun(hit);
      assert forall i :: |log0| <= i < |log| ==> Erasing(log[i], b, k);
      if Tidy(was) {
        InPlaceIn(was, k, name, hit.run);
      }
      if Tidy(was) && Found(was, name).None? {
        InPlaceEnd(was, k, name, hit.run);
        InPlaceSafe(was, k, name, child, log, |log0|);
      }
    }

    /** fat_rename to a long name: a new set with the old content, then the old set is retired. */
    method RenameToLong(hit: Hit, ghost child: Name, name: Name)
        returns (code: int, ghost at: nat, ghost alias: Name, ghost grown: bool)
      requires Valid() && HitAt(slots, child, hit) && Ascii(name) && Legal(name)
      modifies `slots, `last, `log, table`copies, table`allocHint, table`own, table`at
      ensures Valid() && |table.copies| == |old(table.copies)| && GrewTo(old(table.own), table.own, key, grown)
        && (grown ==> !fixed)
      ensures !grown ==> table.copies == old(table.copies) && table.own == old(table.own) && table.at == old(table.at)
      ensures |old(log)| <= |log| && log[..|old(log)|] == old(log)
      ensures code == 0 || (code == -1 && !grown && slots == old(slots) && log == old(log))
      ensures code == -1 ==> NoAlias(slots, name) || (Stuck() && NoRoom(slots, SlotsOf(name)))
      ensures code == 0 ==> !NoAlias(old(slots), name) && !(old(Stuck()) && NoRoom(old(slots), SlotsOf(name)))
      ensures code == 0 && Tidy(old(slots)) ==> MovedEntry(old(slots), slots, hit.at, at)
      ensures code == 0 && Tidy(old(slots)) && Found(old(slots), Known(name)).None? ==>
        Renamed(old(slots), slots, hit.at, at, name, alias) && RenameSafe(old(slots), child, name, log, |old(log)|)
    {
      hide Legal, Is83, Found, Renamed, Known, Tidy, Writing, NewEntry, Marking, FirstFit, Placed, Sealed, Zeros, Block,
        EntrySet, Marked, ItemOf, NoAlias, NoRoom, Ascii, RunLen, SlotsOf, RenameSafe, RunPositions, HitAt,
          Table.Ready, Backed, GrewTo, AllUsed, View, SlotSized, MovedEntry;
      HitFacts(slots, child, hit);
      ghost var was, log0 := slots, log;
      var k, attr, it := hit.at, slots[hit.at][11], hit.item;
      FoundAttr(slots, child);
      LegalSlots(name);
      ghost var base, start, entry;
      code, base, start, entry, alias, grown := CreateDirent(name, attr, it);
      at := 0;
      if code == 0 {
        ghost var c, log1 := slots, log;
        EntryFilled(was, name, attr, it, entry, alias);
        at := start + |entry| - 1;
        RunKept(was, base, perCluster, start, entry, name, attr, it, alias, child, hit);
        MarkDeleted(hit);
        if Tidy(was) {
          LongIn(was, base, perCluster, start, entry, name, attr, alias, k);
        }
        if Tidy(was) && Found(was, Known(name)).None? {
          LongEnd(was, base, perCluster, start, entry, name, attr, alias, k, child);
          LongSafe(was, base, perCluster, start, entry, name, attr, alias, k, child, log, |log0|, |log1|);
        }
      }
    }

    /** fat_rename within the directory: 0; -2 for an illegal name; -3 for a name already taken; -1 otherwise.
        After every single write the file is there under its old or its new name. */
    method Rename(child: Name, name: Name) returns (code: int, ghost at: nat, ghost alias: Name, ghost grown: bool)
      requires Valid() && Ascii(name)
      modifies `slots, `last, `log, table`copies, table`allocHint, table`own, table`at
      ensures Valid() && |table.copies| == |old(table.copies)| && GrewTo(old(table.own), table.own, key, grown)
        && (grown ==> !fixed)
      ensures !grown ==> table.copies == old(table.copies) && table.own == old(table.own) && table.at == old(table.at)
      ensures |old(log)| <= |log| && log[..|old(log)|] == old(log)
      ensures -3 <= code <= 0 && (code != 0 ==> !grown && slots == old(slots) && log == old(log))
      ensures code == -2 <==> !Legal(name)
      ensures code == -3 <==> Legal(name) && Found(old(slots), name).Some?
      ensures code == -1 ==>
        || Found(slots, child).None?
        || (!Is83(name) && (NoAlias(slots, name) || (Stuck() && NoRoom(slots, SlotsOf(name)))))
      ensures code == 0 && !Is83(name) ==>
        && !NoAlias(old(slots), name)
        && !(old(Stuck()) && NoRoom(old(slots), SlotsOf(name)))
      ensures code == 0 ==> Found(old(slots), child).Some?
      ensures code == 0 && Tidy(old(slots)) ==> MovedEntry(old(slots), slots, Found(old(slots), child).value, at)
      ensures code == 0 && Tidy(old(slots)) && Found(old(slots), Known(name)).None? ==>
        && Renamed(old(slots), slots, Found(old(slots), child).value, at, name, alias)
        && RenameSafe(old(slots), child, name, log, |old(log)|)
    {
      hide Legal, Is83, Found, Renamed, Known, Tidy, NoAlias, NoRoom, Ascii, SlotsOf, RenameSafe, RunPositions, ItemOf,
        Table.Ready, Backed, GrewTo, AllUsed, View, SlotSized, MovedEntry;
      code, at, alias, grown := -1, 0, [], false;
      GrewNot(table.own, key);
      if !Legal(name) {
        return -2, at, alias, grown;
      }
      var dup := Locate(name);
      if dup.Some? {
        return -3, at, alias, grown;
      }
      var hit := Locate(child);
      if hit.None? {
        return -1, at, alias, grown;
      }
      if Is83(name) {
        KnownShort(name);
        RenameInPlace(hit.value, child, name);
        code, at, alias := 0, hit.value.at, name;
      } else {
        code, at, alias, grown := RenameToLong(hit.value, child, name);
      }
    }
  }

  lemma {:induction false} Collect(slots: seq<Slot>, i: nat, run: seq<nat>)
    requires i < |slots| && IsLfn(slots[i]) && RunPositions(slots, i, run)
    ensures |run| == |AccAt(slots, i)|
    ensures AccAt(slots, i + 1) == if |run| < LFN_SLOTS then AccAt(slots, i) + [slots[i]] else AccAt(slots, i)
    ensures RunPositions(slots, i + 1, if |run| < LFN_SLOTS then run + [i] else run)
  {
    assert Block(slots, i + 1) == Block(slots, i) + 1;
  }

  lemma {:induction false} Discard(slots: seq<Slot>, i: nat)
    requires i <= |slots| && (i == 0 || !IsLfn(slots[i - 1]))
    ensures AccAt(slots, i) == [] && RunPositions(slots, i, [])
  {
  }

  /** An entry without a match is passed over. */
  lemma {:induction false} Passed(slots: seq<Slot>, i: nat, name: Name)
    requires i < |slots| && (IsShort(slots[i]) ==> !Matches(slots[i], AccAt(slots, i), name))
    ensures !Shows(slots, i, name)
  {
  }

  /** The first match is what the name is found at. */
  lemma {:induction false} Seen(slots: seq<Slot>, i: nat, name: Name)
    requires i < |slots| && (forall j :: 0 <= j <= i ==> slots[j][0] != 0)
    requires IsShort(slots[i]) && Matches(slots[i], AccAt(slots, i), name)
    requires forall j: nat :: j < i ==> !Shows(slots, j, name)
    ensures Found(slots, name) == Some(i)
  {
    hide Matches, AccAt;
    assert Live(slots, i);
    assert Shows(slots, i, name);
  }

  /** Nothing is found when the scan reaches the end mark or the end of the directory. */
  lemma {:induction false} Unseen(slots: seq<Slot>, i: nat, name: Name)
    requires i <= |slots| && (i < |slots| ==> slots[i][0] == 0)
    requires forall j: nat :: j < i ==> !Shows(slots, j, name)
    ensures Found(slots, name).None?
  {
    hide Matches, AccAt;
    forall j: nat
      ensures !Shows(slots, j, name)
    {
    }
  }
}
