/** What files hold, and which operations leave it alone. */
module ExfatContents {
  import opened Arith
  import opened Bytes
  import opened ExfatNames
  import opened ExfatEntrySet
  import opened ExfatScan
  import opened ExfatSpace
  import opened ExfatHeap
  import opened ExfatTree
  import opened ExfatLayout
  import opened ExfatEdit
  import opened ExfatGrow
  import opened ExfatAppend
  import opened ExfatOps
  import opened ExfatStream
  import opened ExfatRemove

  /** The clusters of an entry. */
  function ChainOf(t: Tree, e: Entry): seq<nat> {
    if e.first in t.own then t.own[e.first].chain else []
  }

  // ---- Listings ----------------------------------------------------------------------------

  /** Size of a name in a listing, terminator included. */
  const LISTED_NAME: nat := 64

  /** An entry as a listing shows it: at most 63 bytes of its name, and its length cut off at 32 bits. */
  datatype Listing = Listing(name: Name, size: nat, isDir: bool)

  function Listed(name: Name): Name { if |name| < LISTED_NAME then name else name[..LISTED_NAME - 1] }

  function ListedAs(e: Entry): Listing { Listing(Listed(e.name), Min(e.size, TWO32 - 1), e.isDir) }

  lemma {:induction false} ListedExact(e: Entry, l: Listing)
    ensures l == ListedAs(e) <==>
      && l.isDir == e.isDir && l.size == (if e.size >= 0x1_0000_0000 then 0xFFFF_FFFF else e.size)
      && |l.name| == (if |e.name| > 63 then 63 else |e.name|)
      && forall i :: 0 <= i < |l.name| ==> l.name[i] == e.name[i]
  {
    if |e.name| > 63 {
      assert forall i :: 0 <= i < 63 ==> e.name[..63][i] == e.name[i];
    }
  }

  function Listings(ents: seq<Entry>): (r: seq<Listing>)
    ensures |r| == |ents|
  {
    seq(|ents|, i requires 0 <= i < |ents| => ListedAs(ents[i]))
  }

  lemma {:induction false} ListingsMore(ents: seq<Entry>, e: Entry)
    ensures Listings(ents + [e]) == Listings(ents) + [ListedAs(e)]
  {
  }

  /** The result code of a deletion. */
  function DeleteCode(geo: Geo, t: Tree, path: Path): int
    requires RefsOk(geo, t)
  {
    var at := Resolve(geo, t, path);
    if at == None then -1
    else
      var e := EntAt(t, at.value.0, at.value.1);
      if e.isDir && e.first in t.dirs && !NoEntries(t.dirs[e.first]) then -2 else 0
  }

  /** A deletion that succeeded. */
  ghost predicate Deleted(geo: Geo, x: Disk, t: Tree, y: Disk, t': Tree, path: Path)
    requires RefsOk(geo, t)
  {
    var at := Resolve(geo, t, path);
    at.Some? && geo.ClusBytes() > 0 && Unlinked(geo, x, t, y, t', at.value.0, at.value.1)
  }

  /** A file's clusters cover its length. */
  ghost predicate Readable(heap: Heap, t: Tree, e: Entry) {
    InHeap(heap, ChainOf(t, e)) && e.size <= |ChainBytes(heap, ChainOf(t, e))|
  }

  /** The bytes of a file: its clusters' bytes up to its length. */
  ghost function FileData(heap: Heap, t: Tree, e: Entry): (b: seq<Byte>)
    requires Readable(heap, t, e)
    ensures |b| == e.size
  {
    ChainBytes(heap, ChainOf(t, e))[..e.size]
  }

  lemma {:induction false} DataPrefix(heap: Heap, t: Tree, e: Entry, n: nat, out: seq<Byte>)
    requires Readable(heap, t, e) && n <= e.size
    requires out == ChainBytes(heap, ChainOf(t, e))[..n]
    ensures |out| == n && out <= FileData(heap, t, e)
  {
  }

  /** The file a path names. */
  function FileAt(geo: Geo, t: Tree, path: Path): (r: Option<Entry>)
    requires RefsOk(geo, t)
  {
    var at := Resolve(geo, t, path);
    if at.Some? && !EntAt(t, at.value.0, at.value.1).isDir then Some(EntAt(t, at.value.0, at.value.1)) else None
  }

  lemma {:induction false} FileOwned(geo: Geo, t: Tree, d: nat, i: nat)
    requires RefsOk(geo, t) && EntryAt(t, d, i)
    ensures EntAt(t, d, i).first == 0 ==> EntAt(t, d, i).first !in t.own
  {
  }

  /** A file's owner is named, so it is neither a directory nor loose. */
  lemma {:induction false} FileNamed(geo: Geo, t: Tree, d: nat, i: nat)
    requires RefsOk(geo, t) && EntryAt(t, d, i) && !EntAt(t, d, i).isDir
    ensures
      var e := EntAt(t, d, i);
      && EntryOk(geo, t, d, i)
      && (e.first == 0 ==> e.first !in t.own && e.size == 0)
      && (e.first != 0 ==> e.first in t.own && e.first !in t.dirs && e.first !in t.loose)
  {
    var e := EntAt(t, d, i);
    assert EntryOk(geo, t, d, i);
    if e.first != 0 {
      assert RefOk(geo, t, e.first);
    }
  }

  /** Every named file other than `gone` keeps its clusters and their bytes. */
  ghost predicate ContentsKept(t0: Tree, h0: Heap, t: Tree, h: Heap, gone: nat) {
    && |h| == |h0|
    && forall k <- t0.own :: k !in t0.dirs && k !in t0.loose && k != gone ==>
         && k in t.own && k !in t.dirs && k !in t.loose && t.own[k] == t0.own[k]
         && forall i :: 0 <= i < |t0.own[k].chain| && t0.own[k].chain[i] < |h0| ==>
              h[t0.own[k].chain[i]] == h0[t0.own[k].chain[i]]
  }

  lemma {:induction false} ContentsRefl(t: Tree, h: Heap)
    ensures ContentsKept(t, h, t, h, 0)
  {
  }

  lemma {:induction false} ContentsTrans(t0: Tree, h0: Heap, t1: Tree, h1: Heap, t2: Tree, h2: Heap, gone: nat)
    requires ContentsKept(t0, h0, t1, h1, gone) && ContentsKept(t1, h1, t2, h2, 0) && 0 !in t1.own
    ensures ContentsKept(t0, h0, t2, h2, gone)
  {
  }

  /** A kept file reads the same. */
  lemma {:induction false} ContentsSame(t0: Tree, h0: Heap, t: Tree, h: Heap, gone: nat, e: Entry)
    requires ContentsKept(t0, h0, t, h, gone) && e.first != gone
    requires e.first in t0.own && e.first !in t0.dirs && e.first !in t0.loose && Readable(h0, t0, e)
    ensures Readable(h, t, e) && FileData(h, t, e) == FileData(h0, t0, e)
  {
    ChainBytesFrame(h0, h, t0.own[e.first].chain);
  }

  // ---- The single operations ---------------------------------------------------------

  lemma {:induction false} StreamContents(t0: Tree, f0: nat, h0: Heap, t: Tree, f: nat, h: Heap)
    requires StreamFrame(t0, f0, h0, t, f, h) && Placed(t0.own, t0.at)
    requires t0.loose <= {f0} && t.loose <= {f} && t.loose <= t.own.Keys && t0.loose <= t0.own.Keys
    ensures ContentsKept(t0, h0, t, h, 0)
  {
    forall k | k in t0.own && k !in t0.dirs && k !in t0.loose
      ensures k in t.own && k !in t.dirs && k !in t.loose && t.own[k] == t0.own[k]
      ensures forall i :: 0 <= i < |t0.own[k].chain| && t0.own[k].chain[i] < |h0| ==>
        h[t0.own[k].chain[i]] == h0[t0.own[k].chain[i]]
    {
      assert k in Sans(t0, f0).own;
      forall i | 0 <= i < |t0.own[k].chain|
        ensures t0.own[k].chain[i] in Sans(t0, f0).at
      {
        SansPlace(t0, f0, k, i);
      }
    }
  }

  lemma {:induction false} SansPlace(t: Tree, f: nat, k: nat, i: nat)
    requires Placed(t.own, t.at) && k in t.own && i < |t.own[k].chain| && (f in t.loose ==> k != f)
    ensures t.own[k].chain[i] in Sans(t, f).at
  {
    assert t.at[t.own[k].chain[i]] == (k, i);
    if f in t.own && f in t.loose {
      forall j | 0 <= j < |t.own[f].chain|
        ensures t.own[f].chain[j] != t.own[k].chain[i]
      {
        assert t.at[t.own[f].chain[j]] == (f, j);
      }
    }
  }

  lemma {:induction false} AppendContents(t0: Tree, h0: Heap, t: Tree, h: Heap, d: nat, e: Entry)
    requires GrownFrom(t0, t, d) && FilesKept(t0, h0, h) && d in t.depth
    ensures d in t.dirs && ContentsKept(t0, h0, Attached(t, d, e), h, 0)
  {
  }

  lemma {:induction false} DeleteContents(geo: Geo, x: Disk, t: Tree, y: Disk, t': Tree, d: nat, i: nat)
    requires geo.Valid() && SpaceOk(geo, x, t.own, t.at) && RefsOk(geo, t) && EntryAt(t, d, i)
    requires Unlinked(geo, x, t, y, t', d, i)
    ensures ContentsKept(t, x.heap, t', y.heap, EntAt(t, d, i).first)
  {
    hide SpaceOk, RefsOk, EntryOk, Detached, Without, Left, GoneFrom, ContentsKept;
    UnlinkedBytes(geo, x, t, y, t', d, i);
    WithoutParts(geo, x, t, d, i);
    DirListed(t, d, i);
    var f := EntAt(t, d, i).first;
    forall k | k in t.own && k !in t.dirs && k !in t.loose && k != f
      ensures k in t'.own && k !in t'.dirs && k !in t'.loose && t'.own[k] == t.own[k]
      ensures forall j :: 0 <= j < |t.own[k].chain| ==> t.own[k].chain[j] !in t.own[d].chain
    {
      OtherOwners(geo, x, t.own, t.at, d, k);
    }
    ContentsIntro(t, x.heap, t', y.heap, f, t.own[d].chain);
  }

  lemma {:induction false} ContentsIntro(t: Tree, h: Heap, t': Tree, h': Heap, f: nat, chain: seq<nat>)
    requires |h'| == |h| && forall c :: 0 <= c < |h| && c !in chain ==> h'[c] == h[c]
    requires forall k <- t.own :: k !in t.dirs && k !in t.loose && k != f ==>
      && k in t'.own && k !in t'.dirs && k !in t'.loose && t'.own[k] == t.own[k]
      && forall j :: 0 <= j < |t.own[k].chain| ==> t.own[k].chain[j] !in chain
    ensures ContentsKept(t, h, t', h', f)
  {
  }

  // ---- A committed stream ------------------------------------------------------------

  /** The name an entry set built for this name reads back as. */
  function ReadBack(name: Name): Name
    requires Decodable(name)
  {
    PutAll([], StoredUnits(name))
  }

  /** All owners but those set apart are the same, though directory d may have grown, and none has lost its name. */
  ghost predicate OwnersSame(t0: Tree, t: Tree, d: nat, apart: set<nat>) {
    && t.orphans == t0.orphans && (forall k :: k !in apart ==> (k in t.own <==> k in t0.own))
    && (forall k <- t0.own :: k !in apart && k != d ==> k in t.own && t.own[k] == t0.own[k])
    && (d !in apart ==> d in t0.own && d in t.own && t0.own[d].chain <= t.own[d].chain)
  }

  lemma {:induction false} GrownOwners(t0: Tree, t: Tree, d: nat, e: Entry)
    requires GrownFrom(t0, t, d) && d in t.dirs && d in t.depth
    ensures OwnersSame(t0, Attached(t, d, e), d, {})
  {
  }

  lemma {:induction false} OwnersFewer(t0: Tree, t: Tree, d: nat, apart: set<nat>)
    requires OwnersSame(t0, t, d, {})
    ensures OwnersSame(t0, t, d, apart)
  {
  }

  /** The file the stream has become: the appended data at the front of its clusters, its entry
      last in its directory, everything else as before. */
  ghost predicate Committed(geo: Geo, h0: Heap, t0: Tree, h: Heap, t: Tree, path: Path, first: nat, data: seq<Byte>)
    requires RefsOk(geo, t0)
  {
    && path != [] && Decodable(path[|path| - 1]) && ResolveDir(geo, t0, path[..|path| - 1]).Some?
    && var d := ResolveDir(geo, t0, path[..|path| - 1]).value;
       var e := Entry(ReadBack(path[|path| - 1]), false, first, |data| % TWO32, false);
       && d in t.dirs && t.dirs[d] == t0.dirs[d] + [Some(e)]
       && KeptExcept(t0, t, d, |t0.dirs[d]|) && ContentsKept(t0, h0, t, h, 0)
       && OwnersSame(t0, t, d, t0.loose + {first}) && t.loose == {}
       && InHeap(h, ChainOf(t, e)) && data <= ChainBytes(h, ChainOf(t, e))
  }

  /** The last set of directory d is the one built for this entry: attribute bits for a directory or for an
      archived file, and the flags of a chained or of a contiguous one. */
  ghost predicate Stored(lay: Layout, d: nat, name: Name, isDir: bool, first: nat, size: nat, contig: bool) {
    && Decodable(name) && name != [] && first < TWO32 && size < TWO64 && d in lay && lay[d] != []
    && lay[d][|lay[d]| - 1] ==
      Live(BuiltSet(StoredUnits(name), if isDir then 0x10 else 0x20, first, size, if contig then 3 else 1))
  }

  /** The directory of a path ends with the set of this file. */
  ghost predicate Filed(geo: Geo, t: Tree, lay: Layout, path: Path, first: nat, size: nat)
    requires RefsOk(geo, t)
  {
    && path != [] && ResolveDir(geo, t, path[..|path| - 1]).Some?
    && Stored(lay, ResolveDir(geo, t, path[..|path| - 1]).value, path[|path| - 1], false, first, size, false)
  }

  /** Some directory ends with it. */
  ghost predicate Holds(lay: Layout, path: Path, first: nat, size: nat) {
    path != [] && exists d: nat :: Stored(lay, d, Base(path), false, first, size, false)
  }

  lemma {:induction false} FiledHolds(geo: Geo, t: Tree, lay: Layout, path: Path, first: nat, size: nat)
    requires RefsOk(geo, t) && Filed(geo, t, lay, path, first, size)
    ensures Holds(lay, path, first, size)
  {
    hide RefsOk, Stored, ResolveDir;
    assert Stored(lay, ResolveDir(geo, t, path[..|path| - 1]).value, Base(path), false, first, size, false);
  }

  lemma {:induction false} FiledBefore(geo: Geo, x0: Disk, t0: Tree, lay0: Layout, f0: nat, x: Disk, t: Tree, f: nat,
      lay: Layout, path: Path, first: nat, size: nat)
    requires Inv(geo, x0, t0, lay0) && Inv(geo, x, t, lay0) && RefsOk(geo, t0) && RefsOk(geo, t)
    requires StreamFrame(t0, f0, x0.heap, t, f, x.heap) && t0.loose <= {f0} && t.loose <= {f}
      && forall k <- t0.loose :: k !in t0.dirs
    requires Filed(geo, t, lay, path, first, size)
    ensures Filed(geo, t0, lay, path, first, size)
  {
    hide Inv, RefsOk, StreamFrame, CommitRefused, ResolveDir, Stored;
    StreamRefusedSame(geo, x0, t0, lay0, f0, x, t, f, path);
  }

  lemma {:induction false} StoredIntro(lay: Layout, d: nat, items: seq<Item>, name: Name, isDir: bool, first: nat,
      size: nat, contig: bool)
    requires Decodable(name) && name != [] && first < TWO32 && size < TWO64 && d in lay
    requires lay[d] == items + [Live(BuiltSet(StoredUnits(name), if isDir then 0x10 else 0x20, first, size,
      if contig then 3 else 1))]
    ensures Stored(lay, d, name, isDir, first, size, contig)
  {
    hide BuiltSet;
  }

  /** When a stream cannot get its entry: its directory is not there, or no end marker shows where to append. */
  ghost predicate CommitRefused(geo: Geo, t: Tree, lay: Layout, path: Path)
    requires RefsOk(geo, t)
  {
    || path == [] || ResolveDir(geo, t, path[..|path| - 1]) == None
    || !HasEnd(geo, t, lay, ResolveDir(geo, t, path[..|path| - 1]).value)
  }

  /** Directories as they are take an entry or refuse it alike. */
  lemma {:induction false} RefusedSame(geo: Geo, t: Tree, t': Tree, lay: Layout, path: Path)
    requires RefsOk(geo, t) && RefsOk(geo, t') && t'.dirs == t.dirs
    requires forall k <- t.dirs :: k in t.own && k in t'.own && t'.own[k].chain == t.own[k].chain
    ensures CommitRefused(geo, t', lay, path) == CommitRefused(geo, t, lay, path)
    ensures path != [] ==> ResolveDir(geo, t', path[..|path| - 1]) == ResolveDir(geo, t, path[..|path| - 1])
  {
    hide RefsOk, ResolveDir, AllSlots;
    if path != [] {
      ResolveDirSame(geo, t, t', path[..|path| - 1]);
    }
  }

  lemma {:induction false} StreamRefusedSame(geo: Geo, x0: Disk, t0: Tree, lay: Layout, f0: nat, x: Disk, t: Tree,
      f: nat, path: Path)
    requires Inv(geo, x0, t0, lay) && Inv(geo, x, t, lay) && RefsOk(geo, t0) && RefsOk(geo, t)
    requires StreamFrame(t0, f0, x0.heap, t, f, x.heap) && t0.loose <= {f0} && t.loose <= {f}
      && forall k <- t0.loose :: k !in t0.dirs
    ensures CommitRefused(geo, t, lay, path) == CommitRefused(geo, t0, lay, path)
    ensures path != [] ==> ResolveDir(geo, t, path[..|path| - 1]) == ResolveDir(geo, t0, path[..|path| - 1])
  {
    hide Inv, RefsOk, StreamFrame, CommitRefused;
    InvParts(geo, x0, t0, lay);
    FrameOwn(t0, f0, x0.heap, t, f, x.heap);
    RefusedSame(geo, t0, t, lay, path);
  }

  lemma {:induction false} LaidFile(h: Heap, t: Tree, first: nat, prev: nat, bytes: seq<Byte>)
    requires Laid(h, t, first, prev, bytes)
    ensures forall k <- t.loose :: k !in t.dirs
  {
    hide ChainBytes;
  }

  lemma {:induction false} CommitSize(geo: Geo, x: Disk, t: Tree, lay: Layout, first: nat, prev: nat, bytes: seq<Byte>)
    requires Inv(geo, x, t, lay) && Laid(x.heap, t, first, prev, bytes)
    ensures first < TWO32
    ensures first != 0 ==> first in t.own && |bytes| == |t.own[first].chain| * geo.ClusBytes()
  {
    hide RefsOk, LayoutOk, Inv;
    InvParts(geo, x, t, lay);
    if first != 0 {
      LaidLoose(x.heap, t, first, prev, bytes);
      ChainFacts(geo, x, t.own, t.at, first);
      hide SpaceOk;
      ChainBytesSize(x.heap, t.own[first].chain, geo.Slots());
    }
  }

  /** The entry of a finished stream may join its directory. */
  lemma {:induction false} CommitAttachable(geo: Geo, t0: Tree, h0: Heap, t: Tree, d: nat, first: nat, prev: nat,
      bytes: seq<Byte>, e: Entry)
    requires Laid(h0, t0, first, prev, bytes) && GrownFrom(t0, t, d)
    requires first != 0 ==> first in t0.own && |bytes| == |t0.own[first].chain| * geo.ClusBytes()
    requires e.name != [] && !e.isDir && !e.contig && e.first == first < TWO32 && e.size < TWO32 && e.size <= |bytes|
    ensures Attachable(geo, t, d, e)
  {
    hide FilesKept, SimilarAll, InHeap;
  }

  lemma {:induction false} CommitBytes(t0: Tree, h0: Heap, t: Tree, h: Heap, d: nat, first: nat, prev: nat,
      bytes: seq<Byte>)
    requires Laid(h0, t0, first, prev, bytes) && GrownFrom(t0, t, d) && FilesKept(t0, h0, h)
      && (first == 0 ==> 0 !in t.own)
    ensures
      var chain := if first in t.own then t.own[first].chain else [];
      InHeap(h, chain) && ChainBytes(h, chain) == bytes
  {
    if first != 0 {
      ChainBytesFrame(h0, h, t0.own[first].chain);
    }
  }

  lemma {:induction false} GrownKeepsAll(t0: Tree, t: Tree, d: nat, e: Entry)
    requires GrownFrom(t0, t, d) && d in t.dirs && d in t.depth
    ensures KeptExcept(t0, Attached(t, d, e), d, |t0.dirs[d]|)
  {
    forall k | k in t0.dirs
      ensures SimilarDir(t0.dirs[k], Attached(t, d, e).dirs[k], |t0.dirs[k]|)
    {
      assert SimilarAll(t0.dirs[k], t.dirs[k]);
    }
  }

  lemma {:induction false} SetShaped(ents: seq<Slot>)
    requires SetOk(ents)
    ensures SetShape(ents)
  {
  }

  /** The entry set of a finished stream. */
  lemma {:induction false} BuiltFile(base: Name, first: nat, size: nat)
    requires Spellable(base) && first < TWO32 && size < TWO32
    ensures Decodable(base) && base != [] && ReadBack(base) != []
    ensures
      var ents := BuiltSet(StoredUnits(base), ATTR_ARCHIVE, first, size, 1);
      SetOk(ents) && SetShape(ents) && EntryOf(ents) == Entry(ReadBack(base), false, first, size, false)
  {
    hide BuiltSet, SetOk, EntryOf, PutAll, Decode;
    SpellableUnits(base);
    BuiltSetDecodes(StoredUnits(base), ATTR_ARCHIVE, first, size, 1);
    SetShaped(BuiltSet(StoredUnits(base), ATTR_ARCHIVE, first, size, 1));
  }

  /** When the append fails the stream's clusters can still be released. */
  lemma {:induction false} FailedStream(geo: Geo, t0: Tree, h0: Heap, x: Disk, t: Tree, lay: Layout, d: nat,
      first: nat, prev: nat, bytes: seq<Byte>)
    requires Laid(h0, t0, first, prev, bytes) && GrownFrom(t0, t, d) && Appending(geo, x, t, lay, d)
    ensures geo.Valid() && SpaceOk(geo, x, t.own, t.at)
    ensures first >= 2 ==> first in t.own && !t.own[first].contig
    ensures first < 2 ==> first !in t.own
  {
    hide Appending, RefsOk, Reads, Checked;
    AppendingBasics(geo, x, t, lay, d);
    OwnerLow(geo, x, t, first);
    hide SpaceOk, FilesKept, InHeap, SimilarAll;
  }

  lemma {:induction false} OwnerLow(geo: Geo, x: Disk, t: Tree, k: nat)
    requires SpaceOk(geo, x, t.own, t.at)
    ensures k in t.own ==> k >= 2
  {
  }

  lemma {:induction false} DoneParts(geo: Geo, x: Disk, t: Tree, lay: Layout, d: nat, t0: Tree, h0: Heap,
      items: seq<Item>, ents: seq<Slot>)
    requires AppendDone(geo, x, t, lay, d, t0, h0, items, ents)
    ensures Appending(geo, x, t, lay, d) && GrownFrom(t0, t, d) && FilesKept(t0, h0, x.heap)
    ensures d in t.own && d in lay && lay[d] == items && InHeap(x.heap, t.own[d].chain)
    ensures DirHolds(x.heap, t.own[d].chain, lay[d] + [Live(ents)])
    ensures d in t.depth && d in t.dirs && RefsOk(geo, t) && 0 !in t.own && t.dirs[d] == t0.dirs[d] && d in t0.dirs
  {
    hide GrownFrom, FilesKept, DirHolds, Appending;
    AppendingBasics(geo, x, t, lay, d);
    GrownFromDirs(t0, t, d);
    hide SpaceOk, EntriesOk, Reads, Checked;
  }

  lemma {:induction false} GrownFromDirs(t0: Tree, t: Tree, d: nat)
    requires GrownFrom(t0, t, d)
    ensures d in t0.dirs && d in t.dirs && t.dirs[d] == t0.dirs[d]
  {
  }

  /** With the entry set written, the stream has become a file. */
  lemma {:induction false} CommitDone(geo: Geo, t0: Tree, h0: Heap, x: Disk, t: Tree, lay: Layout, d: nat, first: nat,
      prev: nat, bytes: seq<Byte>, e: Entry, items: seq<Item>, ents: seq<Slot>, path: Path, data: seq<Byte>)
    requires AppendDone(geo, x, t, lay, d, t0, h0, items, ents)
    requires Laid(h0, t0, first, prev, bytes) && data <= bytes && first < TWO32
    requires first != 0 ==> first in t0.own && |bytes| == |t0.own[first].chain| * geo.ClusBytes()
    requires SetOk(ents) && EntryOf(ents) == e
    requires RefsOk(geo, t0) && path != [] && Decodable(path[|path| - 1])
    requires ResolveDir(geo, t0, path[..|path| - 1]) == Some(d)
    requires e == Entry(ReadBack(path[|path| - 1]), false, first, |data| % TWO32, false) && e.name != []
    ensures d in t.dirs && d in t.depth
    ensures Inv(geo, x, Attached(t, d, e), lay[d := items + [Live(ents)]])
    ensures Committed(geo, h0, t0, x.heap, Attached(t, d, e), path, first, data)
    ensures Attached(t, d, e).loose == {}
  {
    hide AppendDone, Laid, GrownFrom, FilesKept, DirHolds, Appending, SetOk, EntryOf, RefsOk, Attachable, Attached,
      KeptExcept, ContentsKept, PutAll, Decode, ResolveDir, Inv;
    DoneParts(geo, x, t, lay, d, t0, h0, items, ents);
    CommitAttachable(geo, t0, h0, t, d, first, prev, bytes, e);
    AttachInv(geo, x, t, lay, d, e, ents);
    CommitBytes(t0, h0, t, x.heap, d, first, prev, bytes);
    GrownKeepsAll(t0, t, d, e);
    GrownOwners(t0, t, d, e);
    OwnersFewer(t0, Attached(t, d, e), d, t0.loose + {first});
    AppendContents(t0, h0, t, x.heap, d, e);
    AttachedParts(t, d, e);
    CommitLoose(t0, h0, t, d, first, prev, bytes, e);
  }

  lemma {:induction false} AttachedParts(t: Tree, d: nat, e: Entry)
    requires d in t.dirs && d in t.depth
    ensures Attached(t, d, e).own == t.own && d in Attached(t, d, e).dirs
      && Attached(t, d, e).dirs[d] == t.dirs[d] + [Some(e)]
    ensures Attached(t, d, e).loose == t.loose - {e.first}
  {
  }

  lemma {:induction false} CommitLoose(t0: Tree, h0: Heap, t: Tree, d: nat, first: nat, prev: nat, bytes: seq<Byte>,
      e: Entry)
    requires Laid(h0, t0, first, prev, bytes) && GrownFrom(t0, t, d) && e.first == first
    ensures t.loose - {e.first} == {}
  {
  }

  /** A commit right after a stream write, seen from before that write. */
  lemma {:induction false} CommittedBefore(geo: Geo, x0: Disk, t0: Tree, lay0: Layout, f0: nat, x1: Disk, t1: Tree,
      f1: nat, h: Heap, t: Tree, path: Path, first: nat, data: seq<Byte>)
    requires Inv(geo, x0, t0, lay0) && RefsOk(geo, t1) && Committed(geo, x1.heap, t1, h, t, path, first, data)
    requires StreamFrame(t0, f0, x0.heap, t1, f1, x1.heap) && t0.loose <= {f0} && t1.loose <= {f1}
    requires f1 in t1.loose ==> first == f1
    ensures RefsOk(geo, t0) && Committed(geo, x0.heap, t0, h, t, path, first, data)
  {
    hide Inv, StreamFrame, RefsOk, KeptExcept, ContentsKept, PutAll, Decode, ResolveDir, InHeap, ChainBytes;
    StreamBefore(geo, x0, t0, lay0, f0, x1, t1, f1);
    ResolveDirSame(geo, t0, t1, path[..|path| - 1]);
    ContentsTrans(t0, x0.heap, t1, x1.heap, t, h, 0);
    KeptByDirs(t0, t1, t, ResolveDir(geo, t0, path[..|path| - 1]).value);
    OwnersBefore(t0, f0, x0.heap, t1, f1, x1.heap, t, ResolveDir(geo, t0, path[..|path| - 1]).value, first);
  }

  /** The owners that are no stream are those from before a stream write. */
  lemma {:induction false} OwnersBefore(t0: Tree, f0: nat, h0: Heap, t1: Tree, f1: nat, h1: Heap, t: Tree, d: nat,
      first: nat)
    requires StreamFrame(t0, f0, h0, t1, f1, h1) && OwnersSame(t1, t, d, t1.loose + {first})
    requires t1.loose <= {first}
    ensures OwnersSame(t0, t, d, t0.loose + {first})
  {
    SansOrphans(t0, f0);
    SansOrphans(t1, f1);
    hide Sans, HeapKept;
    forall k | k !in t0.loose && k != first
      ensures k in t1.own <==> k in t0.own
      ensures k in t0.own ==> t1.own[k] == t0.own[k]
    {
      SansOwner(t0, f0, k);
      SansOwner(t1, f1, k);
    }
  }

  lemma {:induction false} SansOrphans(t: Tree, f: nat)
    ensures Sans(t, f).orphans == t.orphans
  {
  }

  lemma {:induction false} SansOwner(t: Tree, f: nat, k: nat)
    requires k !in t.loose || k != f
    ensures k in Sans(t, f).own <==> k in t.own
    ensures k in t.own ==> Sans(t, f).own[k] == t.own[k]
  {
  }

  lemma {:induction false} KeptByDirs(t0: Tree, t1: Tree, t: Tree, d: nat)
    requires t1.dirs == t0.dirs && d in t0.dirs && KeptExcept(t1, t, d, |t1.dirs[d]|)
    ensures KeptExcept(t0, t, d, |t0.dirs[d]|)
  {
  }

  lemma {:induction false} StreamBefore(geo: Geo, x0: Disk, t0: Tree, lay0: Layout, f0: nat, x1: Disk, t1: Tree,
      f1: nat)
    requires Inv(geo, x0, t0, lay0) && RefsOk(geo, t1)
    requires StreamFrame(t0, f0, x0.heap, t1, f1, x1.heap) && t0.loose <= {f0} && t1.loose <= {f1}
    ensures RefsOk(geo, t0) && t1.dirs == t0.dirs && ContentsKept(t0, x0.heap, t1, x1.heap, 0) && 0 !in t1.own
  {
    hide SpaceOk, EntriesOk, LayoutOk, StreamFrame, ContentsKept;
    InvParts(geo, x0, t0, lay0);
    SpacePlaced(geo, x0, t0.own, t0.at);
    FrameOwn(t0, f0, x0.heap, t1, f1, x1.heap);
    hide Placed, Inv;
    StreamContents(t0, f0, x0.heap, t1, f1, x1.heap);
  }

  lemma {:induction false} ResolveDirSame(geo: Geo, t: Tree, t': Tree, path: Path)
    requires RefsOk(geo, t) && RefsOk(geo, t') && t'.dirs == t.dirs
    ensures ResolveDir(geo, t', path) == ResolveDir(geo, t, path)
  {
    hide RefsOk, EntryOk;
    ResolveSame(geo, t, t', path);
  }

  /** Paths resolve by directory contents alone. */
  lemma {:induction false} ResolveSame(geo: Geo, t: Tree, t': Tree, path: Path)
    requires RefsOk(geo, t) && RefsOk(geo, t') && t'.dirs == t.dirs
    ensures Resolve(geo, t', path) == Resolve(geo, t, path)
    decreases |path|
  {
    hide RefsOk, EntryOk;
    if path != [] && path[..|path| - 1] != [] {
      ResolveSame(geo, t, t', path[..|path| - 1]);
    }
  }
}
