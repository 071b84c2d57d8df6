/** Names in FAT directories: 8.3 short names, long names spread over LFN slots, and aliases. */
module FatNames {
  import opened Arith
  import opened Bytes

  /** A NUL-free name. */
  type Name = seq<Byte>

  const DOT: Byte := 0x2E
  const SPACE: Byte := 0x20
  const ATTR_LFN: Byte := 0x0F
  const LFN_CHARS: nat := 13
  const LFN_SLOTS: nat := 5
  const LONG_BUF: nat := 63

  function Upper(c: Byte): Byte { if 0x61 <= c <= 0x7A then c - 32 else c }

  function UpperAll(s: Name): (r: Name)
    ensures |r| == |s|
  {
    seq(|s|, i requires 0 <= i < |s| => Upper(s[i]))
  }

  /** eq_ci: equality up to ASCII case. */
  predicate SameName(a: Name, b: Name) { UpperAll(a) == UpperAll(b) }

  lemma {:induction false} SameNameExact(a: Name, b: Name)
    ensures SameName(a, b) <==> CaseAlike(a, b)
  {
    forall i | 0 <= i < |a| && i < |b|
      ensures UpperAll(a)[i] == UpperAll(b)[i] <==> CaseTwins(a[i], b[i])
    {
      var x: nat, y: nat := a[i], b[i];
    }
    if CaseAlike(a, b) {
      assert forall i :: 0 <= i < |a| ==> UpperAll(a)[i] == UpperAll(b)[i];
    }
  }

  lemma {:induction false} UpperExact(s: Name, r: Name)
    ensures r == UpperAll(s) <==> |r| == |s| && forall i :: 0 <= i < |s| ==> Capital(s[i], r[i])
  {
  }

  // ---- Short names ------------------------------------------------------------------------------

  function TakeUntil(s: seq<Byte>, stop: Byte): (r: seq<Byte>)
    ensures |r| <= |s| && r == s[..|r|] && stop !in r
    ensures |r| < |s| ==> s[|r|] == stop
  {
    if s == [] || s[0] == stop then [] else [s[0]] + TakeUntil(s[1..], stop)
  }

  /** parse_83: the name spelled by the first 11 bytes of a directory slot, up to a NUL. */
  function Parse83(d: seq<Byte>): Name
    requires |d| >= 11
  {
    TakeUntil(TakeUntil(d[..8], SPACE) + if d[8] != SPACE then [DOT] + TakeUntil(d[8..11], SPACE) else [], 0)
  }

  /** A base and an extension as eleven space-padded upper-case bytes. */
  function Padded(base: Name, ext: Name): (s: seq<Byte>)
    requires |base| <= 8 && |ext| <= 3
    ensures |s| == 11
  {
    UpperAll(base) + seq(8 - |base|, _ => SPACE) + UpperAll(ext) + seq(3 - |ext|, _ => SPACE)
  }

  /** Position of the last dot, |s| when there is none. */
  function LastDot(s: Name): (i: nat)
    ensures i <= |s| && (i < |s| ==> s[i] == DOT) && (forall k :: i < k < |s| ==> s[k] != DOT)
      && (i == |s| ==> DOT !in s)
  {
    if s == [] then 0
    else if s[|s| - 1] == DOT then |s| - 1
    else
      var i := LastDot(s[..|s| - 1]);
      if i == |s| - 1 then |s| else i
  }

  function Cut(s: Name, n: nat): (r: Name)
    ensures |r| <= n && |r| <= |s| && r == s[..|r|]
  {
    if |s| <= n then s else s[..n]
  }

  /** make_83_name: up to eight characters before the last dot, up to three after it. */
  function Make83(s: Name): (r: seq<Byte>)
    ensures |r| == 11
  {
    var i := LastDot(s);
    Padded(Cut(s[..i], 8), if i < |s| then Cut(s[i + 1..], 3) else [])
  }

  /** A plain part of a short name. */
  predicate Solid(s: Name) { forall i :: 0 <= i < |s| ==> s[i] != SPACE && s[i] != DOT && s[i] != 0 }

  lemma {:induction false} TakeAll(s: seq<Byte>, stop: Byte)
    requires stop !in s
    ensures TakeUntil(s, stop) == s
  {
    if s != [] {
      assert s[0] in s;
      TakeAll(s[1..], stop);
    }
  }

  lemma {:induction false} UpperSolid(s: Name)
    requires Solid(s)
    ensures Solid(UpperAll(s))
  {
  }

  lemma {:induction false} TakePadded(s: seq<Byte>, n: nat)
    requires forall i :: 0 <= i < |s| ==> s[i] != SPACE
    ensures TakeUntil(s + seq(n, _ => SPACE), SPACE) == s
  {
    if s == [] {
      assert s + seq(n, _ => SPACE) == seq(n, _ => SPACE);
    } else {
      assert (s + seq(n, _ => SPACE))[1..] == s[1..] + seq(n, _ => SPACE);
      TakePadded(s[1..], n);
    }
  }

  /** base[.ext] */
  function Joined(base: Name, ext: Name): Name { base + if ext == [] then [] else [DOT] + ext }

  /** The written short name reads back as base, dot, extension, in upper case. */
  lemma {:induction false} ParsePadded(base: Name, ext: Name, d: seq<Byte>)
    requires 1 <= |base| <= 8 && |ext| <= 3 && Solid(base) && Solid(ext)
    requires |d| >= 11 && d[..11] == Padded(base, ext)
    ensures Parse83(d) == UpperAll(Joined(base, ext))
  {
    UpperSolid(base);
    UpperSolid(ext);
    PaddedParts(base, ext, d);
    var u, v := UpperAll(base), UpperAll(ext);
    hide UpperAll, Padded;
    TakePadded(u, 8 - |base|);
    TakePadded(v, 3 - |ext|);
    var whole := u + if ext == [] then [] else [DOT] + v;
    assert d[8] == d[8..11][0];
    assert Parse83(d) == TakeUntil(whole, 0);
    TakeAll(whole, 0);
    UpperJoined(base, ext);
  }

  lemma {:induction false} PaddedParts(base: Name, ext: Name, d: seq<Byte>)
    requires |base| <= 8 && |ext| <= 3
    requires |d| >= 11 && d[..11] == Padded(base, ext)
    ensures d[..8] == UpperAll(base) + seq(8 - |base|, _ => SPACE)
    ensures d[8..11] == UpperAll(ext) + seq(3 - |ext|, _ => SPACE)
  {
    hide UpperAll;
    assert d[..8] == d[..11][..8];
    assert d[8..11] == d[..11][8..11];
  }

  lemma {:induction false} UpperJoined(base: Name, ext: Name)
    ensures UpperAll(Joined(base, ext)) == UpperAll(base) + if ext == [] then [] else [DOT] + UpperAll(ext)
  {
    if ext == [] {
      assert base + [] == base;
    }
  }

  lemma {:induction false} DotOfJoined(base: Name, ext: Name)
    requires Solid(base) && Solid(ext)
    ensures LastDot(Joined(base, ext)) == |base|
  {
    var s := Joined(base, ext);
    assert forall k :: 0 <= k < |base| ==> s[k] == base[k];
    assert forall k :: |base| < k < |s| ==> s[k] == ext[k - |base| - 1];
    if ext != [] {
      assert s[|base|] == DOT && DOT in s;
    }
  }

  /** Writing a name of the form base[.ext] as a short name and reading it back gives the name in
      upper case. */
  lemma {:induction false} ShortRoundTrip(base: Name, ext: Name, d: seq<Byte>)
    requires 1 <= |base| <= 8 && |ext| <= 3 && Solid(base) && Solid(ext)
    requires |d| >= 11 && d[..11] == Make83(Joined(base, ext))
    ensures SameName(Parse83(d), Joined(base, ext))
  {
    var s := Joined(base, ext);
    DotOfJoined(base, ext);
    assert s[..|base|] == base;
    if ext != [] {
      assert s[|base| + 1..] == ext;
    }
    ParsePadded(base, ext, d);
    UpperTwice(s);
  }

  lemma {:induction false} UpperTwice(s: Name)
    ensures UpperAll(UpperAll(s)) == UpperAll(s)
  {
  }

  // ---- Long names ---------------------------------------------------------------------------------

  /** The character units of a long-name slot, in order. */
  function Units(d: Slot): (u: seq<nat>)
    ensures |u| == LFN_CHARS
  {
    [Rd16(d, 1), Rd16(d, 3), Rd16(d, 5), Rd16(d, 7), Rd16(d, 9),
     Rd16(d, 14), Rd16(d, 16), Rd16(d, 18), Rd16(d, 20), Rd16(d, 22), Rd16(d, 24),
     Rd16(d, 28), Rd16(d, 30)]
  }

  /** lfn_append: terminators and padding are skipped, other than ASCII becomes a question mark. */
  function Chars(units: seq<nat>): (r: Name)
    ensures |r| <= |units|
  {
    if units == [] then []
    else
      var u := units[0];
      (if u == 0 || u == 0xFFFF then [] else if u < 128 then [u] else [0x3F as Byte]) + Chars(units[1..])
  }

  /** What build_lfn has gathered: the five parts and the highest sequence number seen. */
  datatype Parts = Parts(part: seq<Name>, used: nat)

  const NoParts: Parts := Parts([[], [], [], [], []], 0)

  /** build_lfn's loop: it stops once sequence number five has been seen. */
  function Gather(slots: seq<Slot>, p: Parts): (r: Parts)
    requires |p.part| == LFN_SLOTS
    ensures |r.part| == LFN_SLOTS
    decreases |slots|
  {
    if slots == [] || p.used >= LFN_SLOTS || slots[0][11] != ATTR_LFN then p
    else
      var n: nat := slots[0][0];
      var no := n % 32;
      if no < 1 || no > LFN_SLOTS then Gather(slots[1..], p)
      else Gather(slots[1..], Parts(p.part[no - 1 := Chars(Units(slots[0]))], if no > p.used then no else p.used))
  }

  function Concat(part: seq<Name>, n: nat): Name
    requires n <= |part|
  {
    if n == 0 then [] else Concat(part, n - 1) + part[n - 1]
  }

  /** The long name a run of slots spells. */
  function LongName(slots: seq<Slot>): Name {
    var p := Gather(slots, NoParts);
    var all := Concat(p.part, if p.used <= LFN_SLOTS then p.used else LFN_SLOTS);
    Cut(all, LONG_BUF)
  }

  /** Unit number ci of a name: its characters, a terminator, padding. */
  function UnitAt(name: Name, ci: nat): (u: nat)
    ensures u < TWO16
  {
    if ci < |name| then name[ci] else if ci == |name| then 0 else 0xFFFF
  }

  function UnitRun(name: Name, from: nat, n: nat): (u: seq<nat>)
    ensures |u| == n && forall k :: 0 <= k < n ==> u[k] < TWO16 && u[k] == UnitAt(name, from + k)
  {
    if n == 0 then [] else UnitRun(name, from, n - 1) + [UnitAt(name, from + n - 1)]
  }

  function UnitBytes(u: seq<nat>): (b: seq<Byte>)
    requires forall k :: 0 <= k < |u| ==> u[k] < TWO16
    ensures |b| == 2 * |u|
  {
    if u == [] then [] else UnitBytes(u[..|u| - 1]) + Le16(u[|u| - 1])
  }

  lemma {:induction false} UnitBytesAt(u: seq<nat>, k: nat)
    requires (forall i :: 0 <= i < |u| ==> u[i] < TWO16) && k < |u|
    ensures UnitBytes(u)[2 * k..2 * k + 2] == Le16(u[k])
  {
    var v := u[..|u| - 1];
    if k < |u| - 1 {
      UnitBytesAt(v, k);
      assert UnitBytes(u)[2 * k..2 * k + 2] == UnitBytes(v)[2 * k..2 * k + 2];
    }
  }

  /** The long-name slot with sequence number no: thirteen characters of the name. */
  function LfnSlot(name: Name, no: nat, last: bool, check: Byte): (d: Slot)
    requires 1 <= no <= LFN_SLOTS
  {
    var from := (no - 1) * LFN_CHARS;
    [if last then 0x40 + no else no] + UnitBytes(UnitRun(name, from, 5)) + [ATTR_LFN, 0, check]
    + UnitBytes(UnitRun(name, from + 5, 6)) + [0, 0] + UnitBytes(UnitRun(name, from + 11, 2))
  }

  lemma {:induction false} SlotUnit(d: Slot, a: seq<Byte>, u: seq<nat>, b: seq<Byte>, k: nat)
    requires (forall i :: 0 <= i < |u| ==> u[i] < TWO16) && d == a + UnitBytes(u) + b && k < |u|
    ensures Rd16(d, |a| + 2 * k) == u[k]
  {
    UnitBytesAt(u, k);
    var o := |a| + 2 * k;
    assert d[o..o + 2] == UnitBytes(u)[2 * k..2 * k + 2];
    RdLe16(d, o, u[k]);
  }

  lemma {:induction false} LfnSlotUnits(name: Name, no: nat, last: bool, check: Byte)
    requires 1 <= no <= LFN_SLOTS
    ensures
      var d := LfnSlot(name, no, last, check);
      && Units(d) == UnitRun(name, (no - 1) * LFN_CHARS, LFN_CHARS)
      && d[0] == (if last then 0x40 + no else no) && d[11] == ATTR_LFN
  {
    hide UnitBytes, Rd16, UnitRun, UnitAt, Units;
    var d := LfnSlot(name, no, last, check);
    var from := (no - 1) * LFN_CHARS;
    var u1, u2, u3 := UnitRun(name, from, 5), UnitRun(name, from + 5, 6), UnitRun(name, from + 11, 2);
    var h: seq<Byte> := [if last then 0x40 + no else no];
    ThreeRuns(d, h, u1, [ATTR_LFN, 0, check], u2, [0, 0], u3);
    UnitRuns(name, from);
    UnitsList(d, u1, u2, u3);
  }

  lemma {:induction false} ThreeRuns(d: Slot, h: seq<Byte>, u1: seq<nat>, m: seq<Byte>, u2: seq<nat>, e: seq<Byte>,
      u3: seq<nat>)
    requires (forall k :: 0 <= k < |u1| ==> u1[k] < TWO16) && (forall k :: 0 <= k < |u2| ==> u2[k] < TWO16)
      && (forall k :: 0 <= k < |u3| ==> u3[k] < TWO16)
    requires |h| == 1 && |u1| == 5 && |m| == 3 && |u2| == 6 && |e| == 2 && |u3| == 2
    requires d == h + UnitBytes(u1) + m + UnitBytes(u2) + e + UnitBytes(u3)
    ensures forall k :: 0 <= k < 5 ==> Rd16(d, 1 + 2 * k) == u1[k]
    ensures forall k :: 0 <= k < 6 ==> Rd16(d, 14 + 2 * k) == u2[k]
    ensures forall k :: 0 <= k < 2 ==> Rd16(d, 28 + 2 * k) == u3[k]
  {
    hide UnitBytes, Rd16;
    var b1, b2, b3 := UnitBytes(u1), UnitBytes(u2), UnitBytes(u3);
    assert d == h + b1 + (m + b2 + e + b3);
    assert d == (h + b1 + m) + b2 + (e + b3);
    assert d == (h + b1 + m + b2 + e) + b3 + [];
    forall k | 0 <= k < 5
      ensures Rd16(d, 1 + 2 * k) == u1[k]
    {
      SlotUnit(d, h, u1, m + b2 + e + b3, k);
    }
    forall k | 0 <= k < 6
      ensures Rd16(d, 14 + 2 * k) == u2[k]
    {
      SlotUnit(d, h + b1 + m, u2, e + b3, k);
    }
    forall k | 0 <= k < 2
      ensures Rd16(d, 28 + 2 * k) == u3[k]
    {
      SlotUnit(d, h + b1 + m + b2 + e, u3, [], k);
    }
  }

  lemma {:induction false} UnitRuns(name: Name, from: nat)
    ensures UnitRun(name, from, LFN_CHARS) == UnitRun(name, from, 5) + UnitRun(name, from + 5, 6) + UnitRun(name,
      from + 11, 2)
  {
  }

  lemma {:induction false} UnitsList(d: Slot, u1: seq<nat>, u2: seq<nat>, u3: seq<nat>)
    requires |u1| == 5 && |u2| == 6 && |u3| == 2
    requires forall k :: 0 <= k < 5 ==> Rd16(d, 1 + 2 * k) == u1[k]
    requires forall k :: 0 <= k < 6 ==> Rd16(d, 14 + 2 * k) == u2[k]
    requires forall k :: 0 <= k < 2 ==> Rd16(d, 28 + 2 * k) == u3[k]
    ensures Units(d) == u1 + u2 + u3
  {
    hide Rd16;
    assert Rd16(d, 1 + 2 * 0) == u1[0] && Rd16(d, 1 + 2 * 1) == u1[1] && Rd16(d, 1 + 2 * 2) == u1[2]
      && Rd16(d, 1 + 2 * 3) == u1[3] && Rd16(d, 1 + 2 * 4) == u1[4];
    assert Rd16(d, 14 + 2 * 0) == u2[0] && Rd16(d, 14 + 2 * 1) == u2[1] && Rd16(d, 14 + 2 * 2) == u2[2];
    assert Rd16(d, 14 + 2 * 3) == u2[3] && Rd16(d, 14 + 2 * 4) == u2[4] && Rd16(d, 14 + 2 * 5) == u2[5];
    assert Rd16(d, 28 + 2 * 0) == u3[0] && Rd16(d, 28 + 2 * 1) == u3[1];
  }

  /** ASCII without NUL. */
  predicate Ascii(s: Name) { forall i :: 0 <= i < |s| ==> 0 < s[i] < 0x80 }

  /** The characters of a name from `from` on, at most n. */
  function Chunk(name: Name, from: nat, n: nat): Name {
    if from >= |name| then [] else Cut(name[from..], n)
  }

  lemma {:induction false} ChunkHead(name: Name, from: nat, n: nat)
    requires from < |name| && n > 0
    ensures Chunk(name, from, n) == [name[from]] + Chunk(name, from + 1, n - 1)
  {
    var rest := name[from + 1..];
    assert name[from..] == [name[from]] + rest;
    if from + 1 < |name| && |name| - from > n {
      assert rest[..n - 1] == Cut(rest, n - 1);
    }
  }

  lemma {:induction false} CharsOfRun(name: Name, from: nat, n: nat)
    requires Ascii(name)
    ensures Chars(UnitRun(name, from, n)) == Chunk(name, from, n)
    decreases n
  {
    var u := UnitRun(name, from, n);
    if n > 0 {
      assert u[0] == UnitAt(name, from);
      assert u[1..] == UnitRun(name, from + 1, n - 1);
      CharsOfRun(name, from + 1, n - 1);
      if from < |name| {
        ChunkHead(name, from, n);
        assert u[0] == name[from] && Chars(u) == [name[from]] + Chars(u[1..]);
      } else {
        assert u[0] == 0 || u[0] == 0xFFFF;
        assert Chunk(name, from, n) == [] && Chunk(name, from + 1, n - 1) == [];
        assert Chars(u) == Chars(u[1..]);
      }
    }
  }

  // ---- Long-name runs -------------------------------------------------------------------------------

  /** Sequence numbers j down to 1 of the n long-name slots of a name. */
  function LfnRun(name: Name, n: nat, j: nat, check: Byte): (r: seq<Slot>)
    requires j <= n <= LFN_SLOTS
    ensures |r| == j
  {
    if j == 0 then [] else [LfnSlot(name, j, j == n, check)] + LfnRun(name, n, j - 1, check)
  }

  /** Slots a long name takes. */
  function LfnCount(name: Name): nat { (|name| + LFN_CHARS - 1) / LFN_CHARS }

  /** What the driver's reader makes of the slots its writer wrote: everything, or, once a fifth slot is
      needed, that slot's characters alone. */
  function Spelled(name: Name): Name { if |name| <= 4 * LFN_CHARS then name else name[4 * LFN_CHARS..] }

  lemma {:induction false} SlotChars(name: Name, n: nat, j: nat, check: Byte)
    requires Ascii(name) && 1 <= j <= n <= LFN_SLOTS
    ensures
      var d := LfnSlot(name, j, j == n, check);
      var b: nat := d[0];
      && Chars(Units(d)) == Chunk(name, (j - 1) * LFN_CHARS, LFN_CHARS) && d[11] == ATTR_LFN && b % 32 == j
        && 0 < b < 0x80
  {
    LfnSlotUnits(name, j, j == n, check);
    CharsOfRun(name, (j - 1) * LFN_CHARS, LFN_CHARS);
  }

  lemma {:induction false} GatherRun(name: Name, n: nat, j: nat, check: Byte, p: Parts)
    requires Ascii(name) && j <= n < LFN_SLOTS && |p.part| == LFN_SLOTS && p.used < LFN_SLOTS
    ensures
      var r := Gather(LfnRun(name, n, j, check), p);
      && r.used == (if j > p.used then j else p.used)
      && (forall i: nat :: i < LFN_SLOTS ==> r.part[i] == if i < j then Chunk(name, i * LFN_CHARS, LFN_CHARS)
        else p.part[i])
  {
    hide LfnSlot, Units, Chars, Chunk, LfnRun, Gather, Ascii;
    var run := LfnRun(name, n, j, check);
    if j == 0 {
      RunHead(name, n, j, check);
      GatherNone(p);
    } else {
      RunHead(name, n, j, check);
      SlotChars(name, n, j, check);
      GatherStep(run, p, j);
      var q := Parts(p.part[j - 1 := Chunk(name, (j - 1) * LFN_CHARS, LFN_CHARS)], if j > p.used then j else p.used);
      GatherRun(name, n, j - 1, check, q);
    }
  }

  lemma {:induction false} RunHead(name: Name, n: nat, j: nat, check: Byte)
    requires j <= n <= LFN_SLOTS
    ensures
      var run := LfnRun(name, n, j, check);
      if j == 0 then run == []
      else run[0] == LfnSlot(name, j, j == n, check) && run[1..] == LfnRun(name, n, j - 1, check)
  {
    hide LfnSlot;
  }

  lemma {:induction false} GatherNone(p: Parts)
    requires |p.part| == LFN_SLOTS
    ensures Gather([], p) == p
  {
  }

  lemma {:induction false} GatherStep(run: seq<Slot>, p: Parts, j: nat)
    requires run != [] && 1 <= j <= LFN_SLOTS && |p.part| == LFN_SLOTS && p.used < LFN_SLOTS
    requires
      var d := run[0];
      var b: nat := d[0];
      d[11] == ATTR_LFN && b % 32 == j
    ensures Gather(run, p) == Gather(run[1..], Parts(p.part[j - 1 := Chars(Units(run[0]))], if j > p.used then j
      else p.used))
  {
    hide Units, Chars;
  }

  lemma {:induction false} ConcatChunks(name: Name, part: seq<Name>, n: nat)
    requires n <= |part| && forall i: nat :: i < n ==> part[i] == Chunk(name, i * LFN_CHARS, LFN_CHARS)
    ensures Concat(part, n) == Cut(name, n * LFN_CHARS)
  {
    if n > 0 {
      ConcatChunks(name, part, n - 1);
      var a := (n - 1) * LFN_CHARS;
      assert Cut(name, a) + Chunk(name, a, LFN_CHARS) == Cut(name, a + LFN_CHARS);
    }
  }

  /** The long-name slots written for a name read back as the name, if and only if they are at most
      four; a fifth makes the reader drop the first 52 characters. */
  lemma {:induction false} LongRoundTrip(name: Name, check: Byte)
    requires Ascii(name) && 0 < |name| <= LFN_SLOTS * LFN_CHARS
    ensures LongName(LfnRun(name, LfnCount(name), LfnCount(name), check)) == Spelled(name) != []
    ensures SameName(Spelled(name), name) <==> |name| <= 4 * LFN_CHARS
  {
    var n := LfnCount(name);
    if n < LFN_SLOTS {
      GatherRun(name, n, n, check, NoParts);
      ConcatChunks(name, Gather(LfnRun(name, n, n, check), NoParts).part, n);
    } else {
      FifthOnly(name, check);
    }
  }

  lemma {:induction false} FifthOnly(name: Name, check: Byte)
    requires Ascii(name) && LfnCount(name) == LFN_SLOTS
    ensures LongName(LfnRun(name, 5, 5, check)) == Cut(Chunk(name, 4 * LFN_CHARS, LFN_CHARS), LONG_BUF)
  {
    hide LfnSlot, Units, Chars, Ascii, Chunk, LfnCount, LfnRun;
    var run := LfnRun(name, 5, 5, check);
    RunHead(name, 5, 5, check);
    SlotChars(name, 5, 5, check);
    GatherStep(run, NoParts, 5);
    var last := Chunk(name, 4 * LFN_CHARS, LFN_CHARS);
    var q := Parts(NoParts.part[4 := last], 5);
    assert Gather(run, NoParts) == Gather(run[1..], q) == q;
    assert Concat(q.part, 1) == [] && Concat(q.part, 2) == [] && Concat(q.part, 3) == [];
    assert Concat(q.part, 5) == Concat(q.part, 4) + last == last;
  }

  // ---- Legal names and aliases ------------------------------------------------------------------------

  const TILDE: Byte := 0x7E

  /** Characters no name may contain: / \ : * ? " < > | */
  predicate Reserved(c: Byte) {
    c == 0x2F || c == 0x5C || c == 0x3A || c == 0x2A || c == 0x3F || c == 0x22 || c == 0x3C || c == 0x3E || c == 0x7C
  }

  /** fat_name_is_legal_lfn */
  predicate Legal(s: Name) {
    && 1 <= |s| <= 64
    && (forall i :: 0 <= i < |s| ==> !Reserved(s[i]) && s[i] >= 0x20)
    && s[|s| - 1] != SPACE && s[|s| - 1] != DOT
  }

  /** Characters a short name may contain: reserved ones, + , ; = [ ], blanks and non-ASCII are out. */
  predicate ShortChar(c: Byte) {
    && 0x20 < c <= 126 && !Reserved(c)
    && c != 0x2B && c != 0x2C && c != 0x3B && c != 0x3D && c != 0x5B && c != 0x5D
  }

  /** fat_name_is_83 */
  predicate Is83(s: Name) {
    var i := LastDot(s);
    && 1 <= i <= 8
    && (i < |s| ==> 1 <= |s| - i - 1 <= 3)
    && (forall k :: 0 <= k < |s| && k != i ==> ShortChar(s[k]) && s[k] != DOT)
  }

  /** The characters an alias keeps, in upper case. */
  predicate Plain(c: Byte) { 0x41 <= Upper(c) <= 0x5A || 0x30 <= c <= 0x39 || c == 0x5F || c == 0x2D }

  function Sift(s: Name, n: nat): (r: Name)
    ensures |r| <= n && forall i :: 0 <= i < |r| ==> Plain(r[i])
  {
    if s == [] || n == 0 then [] else if Plain(s[0]) then [Upper(s[0])] + Sift(s[1..], n - 1) else Sift(s[1..], n)
  }

  function AliasBase(name: Name): (r: Name)
    ensures 1 <= |r| <= 6 && forall i :: 0 <= i < |r| ==> Plain(r[i])
  {
    var b := Sift(name[..LastDot(name)], 6);
    if b == [] then [0x46, 0x49, 0x4C, 0x45] else b
  }

  function AliasExt(name: Name): (r: Name)
    ensures |r| <= 3 && forall i :: 0 <= i < |r| ==> Plain(r[i])
  {
    var i := LastDot(name);
    if i < |name| then Sift(name[i + 1..], 3) else []
  }

  function AliasStem(name: Name, n: nat): (r: Name)
    requires 1 <= n <= 99
    ensures 1 <= |r| <= 8 && Solid(r) && 0x20 < r[0] < 0x80
  {
    if n < 10 then AliasBase(name) + [TILDE, 0x30 + n]
    else Cut(AliasBase(name), 5) + [TILDE, 0x30 + n / 10, 0x30 + n % 10]
  }

  /** The n-th candidate NAME~N. */
  function Alias(name: Name, n: nat): Name
    requires 1 <= n <= 99
  {
    Joined(AliasStem(name, n), AliasExt(name))
  }

  /** The eleven bytes of a short entry that read back as this name. */
  predicate ShortFor(short: seq<Byte>, name: Name) {
    |short| == 11 && 0x20 < short[0] < 0x80 && short[0] != DOT && SameName(Parse83(short), name)
  }

  lemma {:induction false} JoinedShort(base: Name, ext: Name)
    requires 1 <= |base| <= 8 && |ext| <= 3 && Solid(base) && Solid(ext) && 0x20 < base[0] < 0x80
    ensures ShortFor(Make83(Joined(base, ext)), Joined(base, ext))
  {
    var short := Make83(Joined(base, ext));
    assert short[..11] == short;
    ShortRoundTrip(base, ext, short);
    DotOfJoined(base, ext);
    assert Joined(base, ext)[..|base|] == base;
    assert short[0] == Upper(base[0]);
  }

  /** Every alias candidate reads back as itself. */
  lemma {:induction false} AliasShort(name: Name, n: nat)
    requires 1 <= n <= 99
    ensures ShortFor(Make83(Alias(name, n)), Alias(name, n))
  {
    JoinedShort(AliasStem(name, n), AliasExt(name));
  }

  /** Every name the driver stores as a short name alone reads back as itself up to case. */
  lemma {:induction false} Is83Short(name: Name)
    requires Is83(name)
    ensures ShortFor(Make83(name), name)
  {
    var i := LastDot(name);
    var base, ext := name[..i], if i < |name| then name[i + 1..] else [];
    assert name == Joined(base, ext);
    JoinedShort(base, ext);
  }

  /** lfn_checksum */
  function Checksum(s: seq<Byte>): Byte
  {
    if s == [] then 0
    else
      var sum: nat := Checksum(s[..|s| - 1]);
      (sum % 2 * 128 + sum / 2 + s[|s| - 1]) % 256
  }
}
