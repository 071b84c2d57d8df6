/** Names and directory entries of a FAT volume as other implementations read them, byte by byte. */
module FatFormat {
  import opened Bits
  import opened Bytes
  import opened FatNames
  import opened FatDir

  // ---- Short names -------------------------------------------------------------------------------

  /** The last dot of a name is at this place; without one the place is the end. */
  predicate LastDotAt(s: Name, dot: nat) {
    && dot <= |s| && (forall k :: dot < k < |s| ==> s[k] != 46)
    && if dot < |s| then s[dot] == 46 else 46 !in s
  }

  /** The first n bytes of a text as capitals, with blanks behind its end. */
  predicate Field(s: seq<Byte>, n: nat, d: seq<Byte>) {
    |d| == n && forall j :: 0 <= j < n ==> if j < |s| then Capital(s[j], d[j]) else d[j] == 32
  }

  /** A short name: eight bytes for what stands before the last dot, three for what stands behind it. */
  lemma {:induction false} Make83Exact(s: Name, dot: nat, d: seq<Byte>)
    requires LastDotAt(s, dot) && |d| == 11
    ensures d == Make83(s) <==> Field(s[..dot], 8, d[..8]) && Field(if dot < |s| then s[dot + 1..] else [], 3, d[8..])
    ensures forall j :: 0 <= j < 11 ==> !(97 <= Make83(s)[j] <= 122)
  {
    hide Padded, UpperAll;
    assert LastDot(s) == dot;
    var base, ext := s[..dot], if dot < |s| then s[dot + 1..] else [];
    PaddedExact(Cut(base, 8), Cut(ext, 3));
    var m := Make83(s);
    FieldCut(base, 8, d[..8]);
    FieldCut(ext, 3, d[8..]);
    FieldOnly(Cut(base, 8), 8, d[..8], m[..8]);
    FieldOnly(Cut(ext, 3), 3, d[8..], m[8..]);
    assert d == d[..8] + d[8..] && m == m[..8] + m[8..];
    assert forall j :: 0 <= j < 8 ==> m[j] == m[..8][j];
    assert forall j :: 8 <= j < 11 ==> m[j] == m[8..][j - 8];
  }

  lemma {:induction false} FieldCut(s: seq<Byte>, n: nat, d: seq<Byte>)
    ensures Field(s, n, d) <==> Field(Cut(s, n), n, d)
  {
  }

  /** A field is determined by its text. */
  lemma {:induction false} FieldOnly(s: seq<Byte>, n: nat, d: seq<Byte>, m: seq<Byte>)
    requires Field(s, n, m) && |d| == n
    ensures Field(s, n, d) <==> d == m
    ensures forall j :: 0 <= j < n ==> !(97 <= m[j] <= 122)
  {
    if Field(s, n, d) {
      assert forall j :: 0 <= j < n ==> d[j] == m[j];
    }
  }

  lemma {:induction false} PaddedExact(base: Name, ext: Name)
    requires |base| <= 8 && |ext| <= 3
    ensures Field(base, 8, Padded(base, ext)[..8]) && Field(ext, 3, Padded(base, ext)[8..])
  {
    hide UpperAll;
    UpperExact(base, UpperAll(base));
    UpperExact(ext, UpperAll(ext));
    var p := Padded(base, ext);
    assert p[..8] == UpperAll(base) + seq(8 - |base|, _ => SPACE);
    assert p[8..] == UpperAll(ext) + seq(3 - |ext|, _ => SPACE);
  }

  // ---- Which slots are entries --------------------------------------------------------------------

  /** A slot that names something: not free, deleted, a long-name slot or a volume label, and no end mark at
      or before it. */
  predicate Candidate(slots: seq<Slot>, k: nat) {
    && k < |slots| && (forall j :: 0 <= j <= k ==> slots[j][0] != 0) && slots[k][0] != 0xE5
    && var attr: nat := slots[k][11]; attr % 16 < 8
  }

  /** A name leads to the first such slot that goes by it. */
  lemma {:induction false} FoundExact(slots: seq<Slot>, x: Name, k: nat)
    ensures Found(slots, x) == Some(k) <==>
      && Candidate(slots, k) && Matches(slots[k], AccAt(slots, k), x)
      && forall j: nat :: j < k && Candidate(slots, j) ==> !Matches(slots[j], AccAt(slots, j), x)
  {
    hide Matches, AccAt;
    forall j: nat
      ensures Candidate(slots, j) <==> j < |slots| && Live(slots, j) && IsShort(slots[j])
    {
      if j < |slots| {
        var attr: nat := slots[j][11];
        assert attr / 8 % 2 == 0 <==> attr % 16 < 8;
      }
    }
    forall j: nat
      ensures Shows(slots, j, x) <==> Candidate(slots, j) && Matches(slots[j], AccAt(slots, j), x)
    {
    }
    hide Shows, Candidate;
    var f := Found(slots, x);
    if f.Some? {
      assert Shows(slots, f.value, x);
    }
    forall j: nat | j < k && Candidate(slots, j)
      ensures f == Some(k) ==> !Matches(slots[j], AccAt(slots, j), x)
    {
      assert Shows(slots, j, x) <==> Matches(slots[j], AccAt(slots, j), x);
    }
  }

  /** What an entry says: the first cluster in two halves, the size, and the directory bit. */
  lemma {:induction false} ItemExact(d: Slot, it: Item)
    ensures it == ItemOf(d) <==>
      && it.first == 65536 * Rd16(d, 20) + Rd16(d, 26) && it.size == Rd32(d, 28)
      && it.isDir == var attr: nat := d[11]; attr % 32 >= 16
  {
    var attr: nat := d[11];
    assert attr / 16 % 2 == 1 <==> attr % 32 >= 16;
  }

  /** Names that differ in the case of ASCII letters alone lead to the same entry. */
  lemma {:induction false} CaseFound(slots: seq<Slot>, x: Name, y: Name)
    requires CaseAlike(x, y)
    ensures Found(slots, x) == Found(slots, y)
    ensures forall hit :: HitAt(slots, x, hit) <==> HitAt(slots, y, hit)
  {
    SameNameExact(x, y);
    SameFound(slots, x, y);
  }

  /** The bytes of a text before the first one of this value. */
  predicate Before(s: seq<Byte>, stop: nat, r: seq<Byte>) {
    |r| <= |s| && r == s[..|r|] && (forall i :: 0 <= i < |r| ==> r[i] != stop) && (|r| < |s| ==> s[|r|] == stop)
  }

  lemma {:induction false} BeforeExact(s: seq<Byte>, stop: Byte, r: seq<Byte>)
    ensures r == TakeUntil(s, stop) <==> Before(s, stop, r)
  {
    var t := TakeUntil(s, stop);
    assert |r| < |t| && r == s[..|r|] ==> t[|r|] == s[|r|];
    assert |t| < |r| <= |s| && r == s[..|r|] ==> r[|t|] == s[|t|];
  }

  /** How the eleven bytes of an entry are read: eight and three bytes, each up to the first blank, a dot
      between them unless the ninth byte is blank, and the whole up to the first zero. */
  lemma {:induction false} Parse83Exact(d: seq<Byte>, base: seq<Byte>, ext: seq<Byte>, r: seq<Byte>)
    requires |d| >= 11 && Before(d[..8], 32, base) && Before(d[8..11], 32, ext)
    ensures r == Parse83(d) <==> Before(if d[8] == 32 then base else base + [46] + ext, 0, r)
  {
    hide Before, TakeUntil;
    BeforeExact(d[..8], 32, base);
    BeforeExact(d[8..11], 32, ext);
    assert base + [46] + ext == base + ([46] + ext) && base + [] == base;
    BeforeExact(if d[8] == 32 then base else base + [46] + ext, 0, r);
  }

  // ---- Which names are short and which are long ----------------------------------------------------

  /** Letters, digits and the sixteen marks ! # $ % & ' ( ) - @ ^ _ ` { } ~ */
  predicate ShortByte(c: nat) {
    || 65 <= c <= 90 || 97 <= c <= 122 || 48 <= c <= 57
    || c in {33, 35, 36, 37, 38, 39, 40, 41, 45, 64, 94, 95, 96, 123, 125, 126}
  }

  /** What long names may hold besides: blank, + , . ; = [ ] and whatever is above 126. */
  predicate LongByte(c: nat) { ShortByte(c) || c in {32, 43, 44, 46, 59, 61, 91, 93} || c > 126 }

  lemma {:induction false} ShortByteExact(c: Byte)
    ensures ShortByte(c) <==> ShortChar(c) && c != 46
    ensures LongByte(c) <==> !Reserved(c) && c >= 32
  {
  }

  /** One to eight such bytes, alone or with a dot and one to three more behind them. */
  predicate ShortForm(s: Name, base: Name, ext: Name) {
    && s == (if ext == [] then base else base + [46] + ext) && 1 <= |base| <= 8 && |ext| <= 3
    && (forall c <- base :: ShortByte(c)) && forall c <- ext :: ShortByte(c)
  }

  lemma {:induction false} Is83Exact(s: Name)
    ensures Is83(s) <==> exists base, ext :: ShortForm(s, base, ext)
  {
    hide ShortChar, ShortByte;
    forall c: Byte
      ensures ShortByte(c) <==> ShortChar(c) && c != 46
    {
      ShortByteExact(c);
    }
    var i := LastDot(s);
    if Is83(s) {
      assert ShortForm(s, s[..i], if i < |s| then s[i + 1..] else []);
    }
    forall base, ext | ShortForm(s, base, ext)
      ensures Is83(s)
    {
      ShortFormIs83(s, base, ext);
    }
  }

  lemma {:induction false} ShortFormIs83(s: Name, base: Name, ext: Name)
    requires ShortForm(s, base, ext)
    ensures Is83(s)
  {
    hide ShortChar, ShortByte;
    forall c: Byte
      ensures ShortByte(c) ==> ShortChar(c) && c != 46 && c != 0 && c != 32
    {
      ShortByteSolid(c);
    }
    assert (forall i :: 0 <= i < |base| ==> base[i] in base) && forall i :: 0 <= i < |ext| ==> ext[i] in ext;
    assert s == Joined(base, ext);
    DotOfJoined(base, ext);
    forall k | 0 <= k < |s| && k != |base|
      ensures ShortChar(s[k]) && s[k] != DOT
    {
      assert s[k] == if k < |base| then base[k] else ext[k - |base| - 1];
    }
  }

  lemma {:induction false} ShortByteSolid(c: Byte)
    ensures ShortByte(c) ==> ShortChar(c) && c != 46 && c != 0 && c != 32
  {
  }

  lemma {:induction false} LegalExact(s: Name)
    ensures Legal(s) <==> 1 <= |s| <= 64 && (forall c <- s :: LongByte(c)) && s[|s| - 1] != 32 && s[|s| - 1] != 46
  {
    forall i | 0 <= i < |s|
      ensures LongByte(s[i]) <==> !Reserved(s[i]) && s[i] >= 0x20
    {
      ShortByteExact(s[i]);
    }
  }

  // ---- Aliases and characters ---------------------------------------------------------------------

  /** How many of the first i flags are set. */
  function Count(flags: seq<bool>, i: nat): (n: nat)
    requires i <= |flags|
    ensures n <= i
  {
    if i == 0 then 0 else Count(flags, i - 1) + if flags[i - 1] then 1 else 0
  }

  lemma {:induction false} CountPrefix(flags: seq<bool>, more: seq<bool>, i: nat)
    requires i <= |flags|
    ensures Count(flags + more, i) == Count(flags, i)
  {
    if i > 0 {
      CountPrefix(flags, more, i - 1);
    }
  }

  lemma {:induction false} CountOneMore(g: seq<bool>, b: bool)
    ensures forall i: nat :: i <= |g| ==> Count(g + [b], i) == Count(g, i)
    ensures Count(g + [b], |g| + 1) == Count(g, |g|) + if b then 1 else 0
  {
    forall i: nat | i <= |g|
      ensures Count(g + [b], i) == Count(g, i)
    {
      CountPrefix(g, [b], i);
    }
  }

  /** Letters, digits, underscore and hyphen. */
  predicate AliasByte(c: nat) { 65 <= c <= 90 || 97 <= c <= 122 || 48 <= c <= 57 || c == 95 || c == 45 }

  function AliasBytes(s: Name): (f: seq<bool>)
    ensures |f| == |s| && forall i :: 0 <= i < |s| ==> (f[i] <==> AliasByte(s[i]))
  {
    seq(|s|, i requires 0 <= i < |s| => AliasByte(s[i]))
  }

  /** The first n alias bytes of a text, in order and as capitals. */
  predicate Sifted(s: Name, n: nat, r: Name) {
    var f := AliasBytes(s);
    && |r| == (if Count(f, |s|) < n then Count(f, |s|) else n)
    && forall i :: 0 <= i < |s| && f[i] && Count(f, i) < n ==> Count(f, i) < |r| && Capital(s[i], r[Count(f, i)])
  }

  lemma {:induction false} SiftExact(s: Name, n: nat)
    ensures Sifted(s, n, Sift(s, n))
  {
    hide Sifted, Sift;
    if s == [] {
      SiftedNothing(n);
    } else {
      var m := |s| - 1;
      assert s == s[..m] + [s[m]];
      SiftExact(s[..m], n);
      SiftLast(s[..m], s[m], n);
      SiftedLast(s[..m], s[m], n, Sift(s[..m], n), Upper(s[m]));
    }
  }

  lemma {:induction false} SiftedNothing(n: nat)
    ensures Sifted([], n, Sift([], n))
  {
  }

  lemma {:induction false} SiftedLast(t: Name, c: Byte, n: nat, r: Name, y: Byte)
    requires Sifted(t, n, r) && (AliasByte(c) ==> Capital(c, y))
    ensures Sifted(t + [c], n, r + if AliasByte(c) && |r| < n then [y] else [])
  {
    hide Count, AliasByte, Capital;
    var s, m := t + [c], |t|;
    var f, g := AliasBytes(s), AliasBytes(t);
    assert f == g + [AliasByte(c)];
    CountOneMore(g, AliasByte(c));
    var q := r + if AliasByte(c) && |r| < n then [y] else [];
    forall i | 0 <= i < |s| && f[i] && Count(f, i) < n
      ensures Count(f, i) < |q| && Capital(s[i], q[Count(f, i)])
    {
      if i < m {
        assert g[i] && Count(g, i) < |r| && q[Count(g, i)] == r[Count(g, i)];
      } else {
        assert Count(f, m) == Count(g, m) == |r|;
      }
    }
  }

  lemma {:induction false} SiftLast(s: Name, c: Byte, n: nat)
    ensures AliasByte(c) ==> Capital(c, Upper(c))
    ensures Sift(s + [c], n) == Sift(s, n) + if AliasByte(c) && |Sift(s, n)| < n then [Upper(c)] else []
    decreases |s|
  {
    if s != [] {
      assert (s + [c])[1..] == s[1..] + [c];
      SiftLast(s[1..], c, n);
      if n > 0 {
        SiftLast(s[1..], c, n - 1);
      }
    }
  }

  /** A base and the number behind it: ~1 to ~9 behind six bytes, ~10 to ~99 behind five. */
  function Numbered(base: Name, n: nat): Name
    requires 1 <= n <= 99
  {
    if n < 10 then base + [126, 48 + n]
    else (if |base| > 5 then base[..5] else base) + [126, 48 + n / 10, 48 + n % 10]
  }

  /** A numbered alias: alias bytes from before the last dot, FILE when there are none, and up to three
      from behind it. */
  ghost predicate AliasForm(name: Name, dot: nat, n: nat, r: Name)
    requires dot <= |name| && 1 <= n <= 99
  {
    exists base, ext :: AliasParts(name, dot, base, ext)
      && r == Numbered(if base == [] then [70, 73, 76, 69] else base, n) + if ext == [] then [] else [46] + ext
  }

  predicate AliasParts(name: Name, dot: nat, base: Name, ext: Name)
    requires dot <= |name|
  {
    Sifted(name[..dot], 6, base) && Sifted(if dot < |name| then name[dot + 1..] else [], 3, ext)
  }

  lemma {:induction false} AliasExact(name: Name, dot: nat, n: nat)
    requires LastDotAt(name, dot) && 1 <= n <= 99
    ensures AliasForm(name, dot, n, Alias(name, n))
  {
    hide Sift, Sifted, Numbered, Joined;
    assert LastDot(name) == dot;
    var rest := if dot < |name| then name[dot + 1..] else [];
    SiftExact(name[..dot], 6);
    SiftExact(rest, 3);
    SiftNothing();
    var base, ext := Sift(name[..dot], 6), Sift(rest, 3);
    assert AliasExt(name) == ext;
    assert AliasBase(name) == if base == [] then [70, 73, 76, 69] else base;
    NumberedStem(name, n);
    hide AliasBase, AliasExt, AliasStem;
    JoinedIs(AliasStem(name, n), ext);
    assert AliasParts(name, dot, base, ext);
  }

  lemma {:induction false} NumberedStem(name: Name, n: nat)
    requires 1 <= n <= 99
    ensures AliasStem(name, n) == Numbered(AliasBase(name), n)
  {
  }

  lemma {:induction false} JoinedIs(base: Name, ext: Name)
    ensures Joined(base, ext) == base + if ext == [] then [] else [46] + ext
  {
  }

  lemma {:induction false} SiftNothing()
    ensures Sift([], 3) == []
  {
  }

  /** Units that are neither the terminator nor padding. */
  function RealUnits(units: seq<nat>): (f: seq<bool>)
    ensures |f| == |units| && forall i :: 0 <= i < |units| ==> (f[i] <==> units[i] != 0 && units[i] != 65535)
  {
    seq(|units|, i requires 0 <= i < |units| => units[i] != 0 && units[i] != 65535)
  }

  /** The characters of a long-name slot: its real units in order, a question mark for each above 127. */
  lemma {:induction false} CharsExact(units: seq<nat>)
    ensures
      var f, r := RealUnits(units), Chars(units);
      && |r| == Count(f, |units|)
      && forall i :: 0 <= i < |units| && f[i] ==>
           Count(f, i) < |r| && r[Count(f, i)] == if units[i] < 128 then units[i] else 63
  {
    if units != [] {
      var m := |units| - 1;
      var t, f := units[..m], RealUnits(units);
      var g := RealUnits(t);
      CharsExact(t);
      CharsLast(t, units[m]);
      assert units == t + [units[m]] && f == g + [f[m]];
      CountOneMore(g, f[m]);
      hide Count, Chars;
      assert forall i :: 0 <= i < m ==> f[i] == g[i];
    }
  }

  lemma {:induction false} CharsLast(units: seq<nat>, u: nat)
    ensures Chars(units + [u]) ==
      Chars(units) + if u == 0 || u == 65535 then [] else if u < 128 then [u] else [63]
  {
    if units != [] {
      assert (units + [u])[1..] == units[1..] + [u];
      CharsLast(units[1..], u);
    }
  }

  // ---- Reading a run of long-name slots -----------------------------------------------------------

  /** The slots that count: up to the first that is no long-name slot, or up to and with the first that has
      number five. */
  predicate Counted(slots: seq<Slot>, e: nat) {
    && e <= |slots| && (forall k :: 0 <= k < e ==> slots[k][11] == 15)
    && (forall k :: 0 <= k < e - 1 ==> Number(slots[k]) != 5)
    && (e == |slots| || slots[e][11] != 15 || (e > 0 && Number(slots[e - 1]) == 5))
  }

  function Number(d: Slot): nat {
    var b: nat := d[0];
    b % 32
  }

  /** The characters of the last of these slots with number n, none when there is no such slot. */
  function PartOf(slots: seq<Slot>, n: nat): Name {
    if slots == [] then []
    else if Number(slots[|slots| - 1]) == n then Chars(Units(slots[|slots| - 1]))
    else PartOf(slots[..|slots| - 1], n)
  }

  /** The same, on top of what was gathered before. */
  predicate Gathered(slots: seq<Slot>, p: Parts, r: Parts)
    requires |p.part| == |r.part| == 5
  {
    forall j :: 0 <= j < 5 ==> r.part[j] == if Missing(slots, j + 1) then p.part[j] else PartOf(slots, j + 1)
  }

  predicate Missing(slots: seq<Slot>, n: nat) { forall k :: 0 <= k < |slots| ==> Number(slots[k]) != n }

  /** Parts above the highest number seen are empty. */
  predicate Bounded(p: Parts) {
    |p.part| == 5 && p.used <= 5 && forall j :: p.used <= j < 5 ==> p.part[j] == []
  }

  /** The parts after one more slot. */
  function Gain(p: Parts, d: Slot): (r: Parts)
    requires |p.part| == 5
    ensures |r.part| == 5
  {
    var no := Number(d);
    if 1 <= no <= 5 then Parts(p.part[no - 1 := Chars(Units(d))], if no > p.used then no else p.used) else p
  }

  lemma {:induction false} PartFirst(d: Slot, rest: seq<Slot>, n: nat)
    ensures PartOf([d] + rest, n) ==
      if Missing(rest, n) then if Number(d) == n then Chars(Units(d)) else [] else PartOf(rest, n)
    decreases |rest|
  {
    hide Units, Chars, Number;
    var all := [d] + rest;
    if rest == [] {
      assert all[..|all| - 1] == [];
    } else {
      var m := |rest| - 1;
      assert all[..|all| - 1] == [d] + rest[..m] && all[|all| - 1] == rest[m];
      if Number(rest[m]) != n {
        PartFirst(d, rest[..m], n);
        assert Missing(rest, n) <==> Missing(rest[..m], n) by {
          assert forall k :: 0 <= k < m ==> rest[..m][k] == rest[k];
        }
      }
    }
  }

  lemma {:induction false} MissingFirst(d: Slot, rest: seq<Slot>, n: nat)
    ensures Missing([d] + rest, n) <==> Number(d) != n && Missing(rest, n)
  {
    hide Number;
    var all := [d] + rest;
    assert all[0] == d && forall k :: 0 <= k < |rest| ==> all[k + 1] == rest[k];
    if Number(d) != n && Missing(rest, n) {
      forall k | 0 <= k < |all|
        ensures Number(all[k]) != n
      {
        if k > 0 {
          assert all[k] == rest[k - 1];
        }
      }
    }
  }

  lemma {:induction false} GainThen(d: Slot, rest: seq<Slot>, p: Parts, r: Parts)
    requires |p.part| == 5 && |r.part| == 5 && Gathered(rest, Gain(p, d), r)
    ensures Gathered([d] + rest, p, r)
  {
    hide Units, Chars, Number, PartOf;
    var all := [d] + rest;
    forall j | 0 <= j < 5
      ensures r.part[j] == if Missing(all, j + 1) then p.part[j] else PartOf(all, j + 1)
    {
      PartFirst(d, rest, j + 1);
      MissingFirst(d, rest, j + 1);
    }
  }

  lemma {:induction false} GatherExact(slots: seq<Slot>, e: nat, p: Parts)
    requires Counted(slots, e) && Bounded(p) && p.used < 5
    ensures
      var r := Gather(slots, p);
      Bounded(r) && Gathered(slots[..e], p, r)
    decreases |slots|
  {
    hide Units, Chars, Number, PartOf;
    if e == 0 {
      assert slots[..0] == [];
    } else {
      var q, rest := Gain(p, slots[0]), slots[1..];
      GainBounded(p, slots[0]);
      GatherOne(slots, p);
      assert slots[..e] == [slots[0]] + rest[..e - 1];
      if q.used < 5 {
        CountedRest(slots, e);
        GatherExact(rest, e - 1, q);
      } else {
        FiveEnds(slots, e, p);
        assert rest[..0] == [];
      }
      GainThen(slots[0], rest[..e - 1], p, Gather(slots, p));
    }
  }

  lemma {:induction false} GainBounded(p: Parts, d: Slot)
    requires Bounded(p)
    ensures Bounded(Gain(p, d))
  {
    hide Units, Chars, Number;
  }

  lemma {:induction false} GatherOne(slots: seq<Slot>, p: Parts)
    requires slots != [] && slots[0][11] == 15 && |p.part| == 5 && p.used < 5
    ensures Gather(slots, p) == Gather(slots[1..], Gain(p, slots[0]))
    ensures Gain(p, slots[0]).used >= 5 ==> Gather(slots, p) == Gain(p, slots[0])
  {
    hide Units, Chars;
  }

  lemma {:induction false} CountedRest(slots: seq<Slot>, e: nat)
    requires Counted(slots, e) && e > 0 && (e == 1 ==> Number(slots[0]) != 5)
    ensures Counted(slots[1..], e - 1)
  {
    hide Number;
  }

  /** After a fifth slot nothing is read. */
  lemma {:induction false} FiveEnds(slots: seq<Slot>, e: nat, p: Parts)
    requires Counted(slots, e) && e > 0 && |p.part| == 5 && p.used < 5 && Gain(p, slots[0]).used >= 5
    ensures e == 1
  {
    hide Units, Chars;
  }

  /** A run of long-name slots spells the five parts one after the other, 63 bytes at most; a part is what the
      last counted slot with its number holds. */
  lemma {:induction false} LongNameExact(slots: seq<Slot>, e: nat)
    requires Counted(slots, e)
    ensures
      var run := slots[..e];
      LongName(slots) ==
        Cut(PartOf(run, 1) + PartOf(run, 2) + PartOf(run, 3) + PartOf(run, 4) + PartOf(run, 5), 63)
  {
    hide Gather, Number, PartOf;
    GatherExact(slots, e, NoParts);
    var r, run := Gather(slots, NoParts), slots[..e];
    forall j | 0 <= j < 5
      ensures r.part[j] == PartOf(run, j + 1)
    {
      if Missing(run, j + 1) {
        PartNone(run, j + 1);
      }
    }
    assert r.part[0] == PartOf(run, 1) && r.part[1] == PartOf(run, 2) && r.part[2] == PartOf(run, 3)
      && r.part[3] == PartOf(run, 4) && r.part[4] == PartOf(run, 5);
    FiveParts(r);
  }

  lemma {:induction false} PartNone(slots: seq<Slot>, n: nat)
    requires Missing(slots, n)
    ensures PartOf(slots, n) == []
  {
    hide Number;
    if slots != [] {
      PartNone(slots[..|slots| - 1], n);
    }
  }

  lemma {:induction false} FiveParts(p: Parts)
    requires Bounded(p)
    ensures Concat(p.part, p.used) == p.part[0] + p.part[1] + p.part[2] + p.part[3] + p.part[4]
  {
    var a := p.part;
    assert Concat(a, 1) == [] + a[0] == a[0];
    assert Concat(a, 2) == a[0] + a[1];
    assert Concat(a, 3) == a[0] + a[1] + a[2];
    assert Concat(a, 4) == a[0] + a[1] + a[2] + a[3];
    assert Concat(a, 5) == a[0] + a[1] + a[2] + a[3] + a[4];
    assert p.used < 5 ==> a[4] == [];
    assert p.used < 4 ==> a[3] == [];
    assert p.used < 3 ==> a[2] == [];
    assert p.used < 2 ==> a[1] == [];
    assert p.used < 1 ==> a[0] == [];
  }

  // ---- Every field of a new entry at its place ----------------------------------------------------

  /** Offsets of the thirteen characters of a long-name slot. */
  const PLACES: seq<nat> := [1, 3, 5, 7, 9, 14, 16, 18, 20, 22, 24, 28, 30]

  /** Sequence number, attribute, checksum of the short name, and thirteen characters with a terminator and
      padding behind the end of the name. */
  ghost predicate LongBytes(d: Slot, name: Name, no: nat, last: bool, check: Byte)
    requires 1 <= no
  {
    && d[0] == (if last then 64 + no else no) && d[11] == 15 && d[12] == 0 && d[13] == check && d[26] == d[27] == 0
    && forall k :: 0 <= k < 13 ==>
         var at := 13 * (no - 1) + k;
         Rd16(d, PLACES[k]) == if at < |name| then name[at] else if at == |name| then 0 else 65535
  }

  /** Name, attributes, time stamps left zero, the two halves of the first cluster, and the size. */
  ghost predicate ShortBytes(d: Slot, short: seq<Byte>, attr: Byte, first: nat, size: nat) {
    && d[..11] == short && d[11] == attr && (forall i :: 12 <= i < 20 || 22 <= i < 26 ==> d[i] == 0)
    && Rd16(d, 20) == first / 65536 && Rd16(d, 26) == first % 65536 && Rd32(d, 28) == size
  }

  /** The slots of a new entry: the long-name slots with the highest number first, then the short one. */
  lemma {:induction false} EntrySetLayout(name: Name, short: seq<Byte>, attr: Byte, it: Item)
    requires |short| == 11 && it.first < TWO32 && it.size < TWO32 && |name| <= 65
    ensures
      var r := EntrySet(name, short, attr, it);
      var n := if Is83(name) then 0 else (|name| + 12) / 13;
      && |r| == n + 1 && ShortBytes(r[n], short, attr, it.first, it.size)
      && forall i :: 0 <= i < n ==> LongBytes(r[i], name, n - i, i == 0, Checksum(short))
  {
    hide Is83, Checksum, LfnSlot, ShortSlot, ShortBytes, LongBytes;
    var n := if Is83(name) then 0 else (|name| + 12) / 13;
    ShortPlaces(short, attr, it.first, it.size);
    forall i | 0 <= i < n
      ensures LongBytes(EntrySet(name, short, attr, it)[i], name, n - i, i == 0, Checksum(short))
    {
      RunAt(name, n, n, Checksum(short), i);
      LongPlaces(name, n - i, i == 0, Checksum(short));
    }
  }

  lemma {:induction false} RunAt(name: Name, n: nat, j: nat, check: Byte, i: nat)
    requires i < j <= n <= LFN_SLOTS
    ensures LfnRun(name, n, j, check)[i] == LfnSlot(name, j - i, j - i == n, check)
    decreases j
  {
    hide LfnSlot;
    if i > 0 {
      RunAt(name, n, j - 1, check, i - 1);
    }
  }

  lemma {:induction false} ShortPlaces(short: seq<Byte>, attr: Byte, first: nat, size: nat)
    requires |short| == 11 && first < TWO32 && size < TWO32
    ensures ShortBytes(ShortSlot(short, attr, first, size), short, attr, first, size)
  {
    hide Rd16, Rd32;
    var d := ShortSlot(short, attr, first, size);
    assert d[20..22] == Le16(first / 65536);
    assert d[26..28] == Le16(first % 65536);
    assert d[28..32] == Le32(size);
    RdLe16(d, 20, first / 65536);
    RdLe16(d, 26, first % 65536);
    RdLe32(d, 28, size);
  }

  lemma {:induction false} LongPlaces(name: Name, no: nat, last: bool, check: Byte)
    requires 1 <= no <= LFN_SLOTS
    ensures LongBytes(LfnSlot(name, no, last, check), name, no, last, check)
  {
    hide Rd16, UnitBytes;
    var d := LfnSlot(name, no, last, check);
    var from := 13 * (no - 1);
    LfnSlotUnits(name, no, last, check);
    forall k | 0 <= k < 13
      ensures Rd16(d, PLACES[k]) == UnitAt(name, from + k)
    {
      assert Rd16(d, PLACES[k]) == Units(d)[k];
    }
  }

  // ---- The checksum of a short name ---------------------------------------------------------------

  /** The sums after each byte, eight bits rotated right by one before the next byte is added. */
  ghost predicate NameSums(s: seq<Byte>, sums: seq<nat>) {
    |sums| == |s| + 1 && sums[0] == 0 && forall i :: 0 <= i < |s| ==> Turned(sums[i], s[i], sums[i + 1], 8)
  }

  lemma {:induction false} ChecksumAlong(s: seq<Byte>, sums: seq<nat>, i: nat)
    requires NameSums(s, sums) && i <= |s|
    ensures sums[i] == Checksum(s[..i])
  {
    hide Turned;
    if i > 0 {
      ChecksumAlong(s, sums, i - 1);
      assert s[..i][..i - 1] == s[..i - 1];
      var sum: nat := Checksum(s[..i - 1]);
      Powers();
      assert Turned(sums[i - 1], s[i - 1], sums[i - 1 + 1], 8);
      TurnExact(sum, s[i - 1], sums[i], 8);
    }
  }

  lemma {:induction false} ChecksumExact(s: seq<Byte>, v: nat)
    ensures v == Checksum(s) <==> exists sums :: NameSums(s, sums) && sums[|s|] == v
  {
    hide Turned;
    var sums: seq<nat>, i := [0], 0;
    while i < |s|
      invariant 0 <= i <= |s| && |sums| == i + 1 && sums[0] == 0 && sums[i] == Checksum(s[..i])
      invariant forall k :: 0 <= k < i ==> Turned(sums[k], s[k], sums[k + 1], 8)
    {
      assert s[..i + 1][..i] == s[..i];
      var next: nat := Checksum(s[..i + 1]);
      Powers();
      TurnExact(sums[i], s[i], next, 8);
      sums := sums + [next];
      i := i + 1;
    }
    assert s[..|s|] == s;
    assert NameSums(s, sums);
    forall t | NameSums(s, t)
      ensures t[|s|] == Checksum(s)
    {
      ChecksumAlong(s, t, |s|);
    }
  }
}
