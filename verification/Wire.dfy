/** The browser's wire protocol: what the proxy prints, and the parser automaton that reads it. */
module Wire {
  import opened Arith
  import opened Bytes

  const JPEG_CAP: nat := 1024 * 1024
  const MP3_CAP: nat := 4096
  const HDR_BUF: nat := 64

  datatype Rect = Rect(x: nat, y: nat, w: nat, h: nat)

  /** One message, and one completed frame of the parser. */
  datatype Msg =
    | Img(data: seq<Byte>)
    | Tile(rect: Rect, data: seq<Byte>)
    | Aud(data: seq<Byte>)
    | FrameEnd

  // ---- The proxy's side ------------------------------------------------------------------

  const SPACE: Byte := 0x20
  const NEWLINE: Byte := 0x0A

  function Decimal(n: nat): (s: seq<Byte>)
    ensures s != [] && forall i :: 0 <= i < |s| ==> IsDigit(s[i])
  {
    if n < 10 then [0x30 + n] else Decimal(n / 10) + [0x30 + n % 10]
  }

  predicate IsDigit(b: Byte) { 0x30 <= b <= 0x39 }

  /** The header line of a message, without its newline. */
  function Header(m: Msg): (h: seq<Byte>)
    ensures h != []
  {
    match m
    case Img(data) => [0x49, 0x4D, 0x47, SPACE] + Decimal(|data|)
    case Tile(r, data) =>
      [0x54, 0x49, 0x4C, 0x45, SPACE] + Decimal(r.x) + [SPACE] + Decimal(r.y) + [SPACE]
      + Decimal(r.w) + [SPACE] + Decimal(r.h) + [SPACE] + Decimal(|data|)
    case Aud(data) => [0x41, 0x55, 0x44, SPACE] + Decimal(|data|)
    case FrameEnd => [0x46, 0x52, 0x41, 0x4D, 0x45, 0x45, 0x4E, 0x44]
  }

  function Payload(m: Msg): seq<Byte> {
    if m.FrameEnd? then [] else m.data
  }

  /** What the proxy writes to the socket for one message. */
  function Encode(m: Msg): seq<Byte> { Header(m) + [NEWLINE] + Payload(m) }

  function EncodeAll(msgs: seq<Msg>): seq<Byte> {
    if msgs == [] then [] else Encode(msgs[0]) + EncodeAll(msgs[1..])
  }

  /** The sizes both sides agree on. */
  predicate Sendable(m: Msg) {
    match m
    case Img(data) => 1 <= |data| <= JPEG_CAP
    case Tile(r, data) => 1 <= |data| <= JPEG_CAP && 1 <= r.w <= 256 && 1 <= r.h <= 256 && r.x < 1_000_000_000
      && r.y < 1_000_000_000
    case Aud(data) => 1 <= |data| <= MP3_CAP
    case FrameEnd => true
  }

  // ---- The parser's automaton --------------------------------------------------------------

  datatype Kind = ImgKind | TileKind | AudKind

  datatype Phase = Idle | InHeader | InData(kind: Kind, rect: Rect, size: nat, got: seq<Byte>)

  /** The header buffer keeps its old contents behind the terminator. */
  datatype Auto = Auto(phase: Phase, hdr: seq<Byte>, len: nat)

  predicate AutoOk(a: Auto) {
    && |a.hdr| == HDR_BUF && a.hdr[HDR_BUF - 1] == 0 && a.len < HDR_BUF
    && (a.phase.InHeader? ==> a.len >= 1 && a.hdr[0] in [0x49, 0x41, 0x54, 0x46])
    && (a.phase.InData? ==> |a.phase.got| < a.phase.size <= if a.phase.kind.AudKind? then MP3_CAP else JPEG_CAP)
  }

  /** First index from i on that is not a space. */
  function SkipSpaces(s: seq<Byte>, i: nat): (j: nat)
    requires i <= |s|
    ensures i <= j <= |s|
    decreases |s| - i
  {
    if i < |s| && s[i] == SPACE then SkipSpaces(s, i + 1) else i
  }

  function ReadDigits(s: seq<Byte>, i: nat, v: nat): (r: (nat, nat))
    requires i <= |s|
    ensures i <= r.1 <= |s|
    decreases |s| - i
  {
    if i < |s| && IsDigit(s[i]) then
      var d: nat := s[i];
      ReadDigits(s, i + 1, v * 10 + (d - 0x30))
    else (v, i)
  }

  /** A decimal number after optional spaces, and where it ends. */
  function ReadInt(s: seq<Byte>, i: nat): (r: (nat, nat))
    requires i <= |s|
    ensures i <= r.1 <= |s|
  {
    ReadDigits(s, SkipSpaces(s, i), 0)
  }

  /** What a complete header line leads to. */
  function Dispatch(hdr: seq<Byte>, len: nat): (r: (Phase, bool))
    requires |hdr| == HDR_BUF && 1 <= len < HDR_BUF
  {
    if hdr[0] == 0x46 then (Idle, true)
    else if hdr[0] == 0x54 then
      if len >= 4 && hdr[1] == 0x49 && hdr[2] == 0x4C then
        var (x, p1) := ReadInt(hdr, if hdr[3] == 0x45 then 5 else 4);
        var (y, p2) := ReadInt(hdr, p1);
        var (w, p3) := ReadInt(hdr, p2);
        var (h, p4) := ReadInt(hdr, p3);
        var (sz, p5) := ReadInt(hdr, p4);
        if sz == 0 || sz > JPEG_CAP || w < 1 || h < 1 || w > 256 || h > 256 then (Idle, false)
        else (InData(TileKind, Rect(x, y, w, h), sz, []), false)
      else (Idle, false)
    else if hdr[0] == 0x49 then
      var (sz, p) := ReadInt(hdr, 4);
      if sz == 0 || sz > JPEG_CAP then (Idle, false) else (InData(ImgKind, Rect(0, 0, 0, 0), sz, []), false)
    else if hdr[0] == 0x41 then
      var (sz, p) := ReadInt(hdr, 4);
      if sz == 0 || sz > MP3_CAP then (Idle, false) else (InData(AudKind, Rect(0, 0, 0, 0), sz, []), false)
    else (Idle, false)
  }

  function Completed(kind: Kind, rect: Rect, data: seq<Byte>): Msg {
    match kind
    case ImgKind => Img(data)
    case TileKind => Tile(rect, data)
    case AudKind => Aud(data)
  }

  /** One byte. */
  function Advance(a: Auto, b: Byte): (r: (Auto, Option<Msg>))
    requires AutoOk(a)
    ensures AutoOk(r.0)
  {
    match a.phase
    case Idle =>
      if b in [0x49, 0x41, 0x54, 0x46] then (Auto(InHeader, a.hdr[0 := b], 1), None) else (a, None)
    case InHeader =>
      if b == NEWLINE then
        var hdr := a.hdr[a.len := 0];
        var (phase, end) := Dispatch(hdr, a.len);
        (Auto(phase, hdr, if phase.InData? then a.len else 0), if end then Some(FrameEnd) else None)
      else if a.len < HDR_BUF - 1 then (Auto(InHeader, a.hdr[a.len := b], a.len + 1), None)
      else (Auto(Idle, a.hdr, 0), None)
    case InData(kind, rect, size, got) =>
      if |got| + 1 >= size then (Auto(Idle, a.hdr, 0), Some(Completed(kind, rect, got + [b])))
      else (a.(phase := a.phase.(got := got + [b])), None)
  }

  /** A stretch of bytes: the state after it and the frames it completes. */
  function Feed(a: Auto, s: seq<Byte>): (r: (Auto, seq<Msg>))
    requires AutoOk(a)
    ensures AutoOk(r.0)
    decreases |s|
  {
    if s == [] then (a, [])
    else
      var (a1, m) := Advance(a, s[0]);
      var (a2, ms) := Feed(a1, s[1..]);
      (a2, (if m.Some? then [m.value] else []) + ms)
  }

  lemma {:induction false} FeedConcat(a: Auto, s: seq<Byte>, t: seq<Byte>)
    requires AutoOk(a)
    ensures
      var (a1, m1) := Feed(a, s);
      var (a2, m2) := Feed(a1, t);
      Feed(a, s + t) == (a2, m1 + m2)
    decreases |s|
  {
    hide Advance, AutoOk;
    if s == [] {
      assert s + t == t;
      var (a2, m2) := Feed(a, t);
      assert [] + m2 == m2;
    } else {
      assert (s + t)[1..] == s[1..] + t;
      var (a1, m) := Advance(a, s[0]);
      FeedConcat(a1, s[1..], t);
      var h := if m.Some? then [m.value] else [];
      var (b1, m1) := Feed(a1, s[1..]);
      var (b2, m2) := Feed(b1, t);
      assert h + (m1 + m2) == h + m1 + m2;
    }
  }

  // ---- Numbers round-trip --------------------------------------------------------------------

  function Fold(s: seq<Byte>, v: nat): nat
    requires forall i :: 0 <= i < |s| ==> IsDigit(s[i])
  {
    if s == [] then v
    else
      assert IsDigit(s[|s| - 1]);
      var d: nat := s[|s| - 1];
      Fold(s[..|s| - 1], v) * 10 + (d - 0x30)
  }

  lemma {:induction false} FoldDecimal(n: nat)
    ensures Fold(Decimal(n), 0) == n
  {
    if n < 10 {
      assert Decimal(n)[..0] == [];
    } else {
      FoldDecimal(n / 10);
      var s := Decimal(n);
      assert s[..|s| - 1] == Decimal(n / 10);
      assert s[|s| - 1] == 0x30 + n % 10;
    }
  }

  lemma {:induction false} FoldFirst(d: Byte, s: seq<Byte>, v: nat)
    requires IsDigit(d) && forall i :: 0 <= i < |s| ==> IsDigit(s[i])
    ensures Fold([d] + s, v) == Fold(s, v * 10 + (d as int - 0x30))
  {
    if s == [] {
      assert [d] + s == [d] && [d][..0] == [];
    } else {
      var t := s[..|s| - 1];
      FoldFirst(d, t, v);
      assert ([d] + s)[..|[d] + s| - 1] == [d] + t;
    }
  }

  /** A run of digits is read as the number it spells. */
  lemma {:induction false} ReadRun(s: seq<Byte>, i: nat, n: nat, v: nat)
    requires i + n <= |s| && (forall k :: i <= k < i + n ==> IsDigit(s[k]))
    requires i + n < |s| ==> !IsDigit(s[i + n])
    ensures ReadDigits(s, i, v) == (Fold(s[i..i + n], v), i + n)
    decreases n
  {
    if n > 0 {
      var d: nat := s[i];
      ReadRun(s, i + 1, n - 1, v * 10 + (d - 0x30));
      assert s[i..i + n] == [s[i]] + s[i + 1..i + n];
      FoldFirst(s[i], s[i + 1..i + n], v);
    }
  }

  /** The printed number, after a space or none, is read back. */
  lemma {:induction false} ReadPrinted(s: seq<Byte>, i: nat, j: nat, n: nat)
    requires i <= j <= i + 1 && j + |Decimal(n)| < |s| && (i < j ==> s[i] == SPACE)
    requires s[j..j + |Decimal(n)|] == Decimal(n) && !IsDigit(s[j + |Decimal(n)|])
    ensures ReadInt(s, i) == (n, j + |Decimal(n)|)
  {
    var D := Decimal(n);
    assert s[j] == D[0];
    assert forall k :: j <= k < j + |D| ==> s[k] == D[k - j];
    ReadRun(s, j, |D|, 0);
    FoldDecimal(n);
    hide Decimal, Fold;
    if i < j {
      assert SkipSpaces(s, i) == SkipSpaces(s, i + 1);
    }
  }

  lemma {:induction false} DecimalSize(n: nat, k: nat)
    requires k >= 1 && n < Pow10(k)
    ensures |Decimal(n)| <= k
  {
    if n >= 10 {
      DecimalSize(n / 10, k - 1);
    }
  }

  function Pow10(k: nat): (p: nat)
    ensures p >= 1
  {
    if k == 0 then 1 else 10 * Pow10(k - 1)
  }

  // ---- Messages round-trip -------------------------------------------------------------------

  predicate Letters(h: seq<Byte>) {
    && 1 <= |h| < HDR_BUF && h[0] in [0x49, 0x41, 0x54, 0x46]
    && forall i :: 0 <= i < |h| ==> h[i] != NEWLINE
  }

  /** The state after the first k bytes of a header. */
  predicate Collecting(a: Auto, h: seq<Byte>, k: nat) {
    && AutoOk(a) && a.phase.InHeader? && 1 <= k <= |h| && a.len == k && a.hdr[..k] == h[..k]
  }

  lemma {:induction false} CollectNext(a: Auto, h: seq<Byte>, k: nat)
    requires Letters(h) && Collecting(a, h, k) && k < |h|
    ensures
      var (b, m) := Advance(a, h[k]);
      Collecting(b, h, k + 1) && m == None
  {
    var b := Advance(a, h[k]).0;
    assert b.hdr[..k + 1] == h[..k + 1];
  }

  /** Feeding a header collects it, whatever the buffer held before. */
  lemma {:induction false} FeedCollect(a: Auto, h: seq<Byte>, k: nat)
    requires Letters(h) && Collecting(a, h, k)
    ensures Collecting(Feed(a, h[k..]).0, h, |h|) && Feed(a, h[k..]).1 == []
    decreases |h| - k
  {
    hide Advance, AutoOk, Letters;
    if k < |h| {
      CollectNext(a, h, k);
      assert h[k..][1..] == h[k + 1..];
      FeedCollect(Advance(a, h[k]).0, h, k + 1);
    }
  }

  lemma {:induction false} FeedHeader(a: Auto, h: seq<Byte>)
    requires AutoOk(a) && a.phase.Idle? && Letters(h)
    ensures Collecting(Feed(a, h).0, h, |h|) && Feed(a, h).1 == []
  {
    var b := Advance(a, h[0]).0;
    assert b.hdr[..1] == h[..1];
    assert Collecting(b, h, 1);
    hide Advance, AutoOk, Letters;
    FeedCollect(b, h, 1);
  }

  /** The header buffer when the newline arrives. */
  predicate Terminated(hdr: seq<Byte>, h: seq<Byte>) {
    |hdr| == HDR_BUF && 1 <= |h| < HDR_BUF && hdr[..|h|] == h && hdr[|h|] == 0
  }

  lemma {:induction false} Part(hdr: seq<Byte>, h: seq<Byte>, i: nat, j: nat)
    requires Terminated(hdr, h) && i <= j <= |h|
    ensures hdr[i..j] == h[i..j]
  {
    assert hdr[..|h|][i..j] == hdr[i..j];
  }

  /** A four-letter word and a size. */
  lemma {:induction false} ReadSize(hdr: seq<Byte>, word: seq<Byte>, n: nat)
    requires |word| == 4 && word[3] == SPACE && Terminated(hdr, word + Decimal(n))
    ensures ReadInt(hdr, 4).0 == n
  {
    var h := word + Decimal(n);
    Part(hdr, h, 4, |h|);
    assert h[4..] == Decimal(n);
    hide Decimal, ReadInt;
    ReadPrinted(hdr, 4, 4, n);
  }

  /** One number of a tile header and the space behind it. */
  lemma {:induction false} ReadField(hdr: seq<Byte>, i: nat, j: nat, n: nat, rest: seq<Byte>)
    requires |hdr| == HDR_BUF && j + |Decimal(n) + rest| <= |hdr| && i <= j <= i + 1
    requires (i < j ==> hdr[i] == SPACE) && rest != [] && !IsDigit(rest[0])
    requires hdr[j..j + |Decimal(n) + rest|] == Decimal(n) + rest
    ensures ReadInt(hdr, i) == (n, j + |Decimal(n)|)
    ensures hdr[j + |Decimal(n)|] == rest[0]
    ensures hdr[j + |Decimal(n)|..j + |Decimal(n)| + |rest|] == rest
  {
    hide Decimal, ReadInt;
    var D := Decimal(n);
    var f := D + rest;
    assert hdr[j..j + |D|] == hdr[j..j + |f|][..|D|] == D;
    assert hdr[j + |D|..j + |f|] == hdr[j..j + |f|][|D|..] == rest;
    assert hdr[j + |D|] == hdr[j + |D|..j + |f|][0];
    ReadPrinted(hdr, i, j, n);
  }

  /** The five numbers of a tile header. */
  lemma {:induction false} ReadTile(hdr: seq<Byte>, x: nat, y: nat, w: nat, h: nat, n: nat, tail: seq<Byte>)
    requires |hdr| == HDR_BUF
      && tail == Decimal(x) + ([SPACE] + Decimal(y)) + ([SPACE] + Decimal(w)) + ([SPACE] + Decimal(h)) + ([SPACE]
        + Decimal(n)) + [0 as Byte]
    requires 5 + |tail| <= |hdr| && hdr[5..5 + |tail|] == tail
    ensures
      var (x', p1) := ReadInt(hdr, 5);
      var (y', p2) := ReadInt(hdr, p1);
      var (w', p3) := ReadInt(hdr, p2);
      var (h', p4) := ReadInt(hdr, p3);
      var (n', p5) := ReadInt(hdr, p4);
      x' == x && y' == y && w' == w && h' == h && n' == n
  {
    hide Decimal, ReadInt;
    var D0, D1, D2, D3, D4 := Decimal(x), Decimal(y), Decimal(w), Decimal(h), Decimal(n);
    var t4 := D4 + [0 as Byte];
    var t3 := D3 + ([SPACE] + t4);
    var t2 := D2 + ([SPACE] + t3);
    var t1 := D1 + ([SPACE] + t2);
    FiveFields(D0, D1, D2, D3, D4);
    assert tail == D0 + ([SPACE] + t1);
    ReadField(hdr, 5, 5, x, [SPACE] + t1);
    var p1 := 5 + |D0|;
    ReadSpaced(hdr, p1, y, [SPACE] + t2);
    var p2 := p1 + 1 + |D1|;
    ReadSpaced(hdr, p2, w, [SPACE] + t3);
    var p3 := p2 + 1 + |D2|;
    ReadSpaced(hdr, p3, h, [SPACE] + t4);
    ReadSpaced(hdr, p3 + 1 + |D3|, n, [0 as Byte]);
  }

  lemma {:induction false} FiveFields(a: seq<Byte>, b: seq<Byte>, c: seq<Byte>, d: seq<Byte>, e: seq<Byte>)
    ensures a + ([SPACE] + b) + ([SPACE] + c) + ([SPACE] + d) + ([SPACE] + e) + [0 as Byte]
         == a + ([SPACE] + (b + ([SPACE] + (c + ([SPACE] + (d + ([SPACE] + (e + [0 as Byte]))))))))
  {
    var t4 := e + [0 as Byte];
    var t3 := d + ([SPACE] + t4);
    var t2 := c + ([SPACE] + t3);
    assert a + ([SPACE] + b) + ([SPACE] + c) + ([SPACE] + d) + ([SPACE] + e) + [0 as Byte]
      == a + ([SPACE] + b) + ([SPACE] + c) + ([SPACE] + d) + ([SPACE] + t4);
    assert a + ([SPACE] + b) + ([SPACE] + c) + ([SPACE] + d) + ([SPACE] + t4)
      == a + ([SPACE] + b) + ([SPACE] + c) + ([SPACE] + t3);
    assert a + ([SPACE] + b) + ([SPACE] + c) + ([SPACE] + t3) == a + ([SPACE] + b) + ([SPACE] + t2);
    assert a + ([SPACE] + b) + ([SPACE] + t2) == a + ([SPACE] + (b + ([SPACE] + t2)));
  }

  /** A number behind a space. */
  lemma {:induction false} ReadSpaced(hdr: seq<Byte>, p: nat, n: nat, rest: seq<Byte>)
    requires |hdr| == HDR_BUF && p + 1 + |Decimal(n) + rest| <= |hdr| && rest != [] && !IsDigit(rest[0])
    requires hdr[p..p + |[SPACE] + (Decimal(n) + rest)|] == [SPACE] + (Decimal(n) + rest)
    ensures ReadInt(hdr, p) == (n, p + 1 + |Decimal(n)|)
    ensures p + 1 + |Decimal(n)| + |rest| <= |hdr| && hdr[p + 1 + |Decimal(n)|..p + 1 + |Decimal(n)| + |rest|] == rest
  {
    hide Decimal, ReadInt;
    ReadNext(hdr, p, Decimal(n) + rest);
    ReadField(hdr, p, p + 1, n, rest);
  }

  lemma {:induction false} ReadNext(hdr: seq<Byte>, p: nat, t: seq<Byte>)
    requires p + 1 + |t| <= |hdr| && hdr[p..p + |[SPACE] + t|] == [SPACE] + t
    ensures hdr[p] == SPACE && hdr[p + 1..p + 1 + |t|] == t
  {
    assert hdr[p] == hdr[p..p + |[SPACE] + t|][0];
    assert hdr[p + 1..p + 1 + |t|] == hdr[p..p + |[SPACE] + t|][1..];
  }

  // ---- Whole messages --------------------------------------------------------------------------

  lemma {:induction false} DecimalShort(n: nat)
    requires n < 1_000_000_000
    ensures |Decimal(n)| <= 9
  {
    assert Pow10(9) == 1_000_000_000;
    DecimalSize(n, 9);
  }

  lemma {:induction false} DecimalTiny(n: nat)
    requires n <= JPEG_CAP
    ensures |Decimal(n)| <= 7
  {
    assert Pow10(7) == 10_000_000;
    DecimalSize(n, 7);
  }

  lemma {:induction false} HeaderLetters(m: Msg)
    requires Sendable(m)
    ensures Letters(Header(m))
  {
    match m
    case Img(data) => DecimalTiny(|data|);
    case Tile(r, data) =>
      DecimalShort(r.x);
      DecimalShort(r.y);
      DecimalTiny(r.w);
      DecimalTiny(r.h);
      DecimalTiny(|data|);
      TileLetters(r, |data|);
    case Aud(data) => DecimalTiny(|data|);
    case FrameEnd =>
  }

  predicate Plain(s: seq<Byte>) { forall i :: 0 <= i < |s| ==> s[i] != NEWLINE }

  lemma {:induction false} PlainDecimal(n: nat)
    ensures Plain(Decimal(n))
  {
    forall i | 0 <= i < |Decimal(n)|
      ensures Decimal(n)[i] != NEWLINE
    {
      assert IsDigit(Decimal(n)[i]);
    }
  }

  lemma {:induction false} TileLetters(r: Rect, n: nat)
    requires |Decimal(r.x)| <= 9 && |Decimal(r.y)| <= 9 && |Decimal(r.w)| <= 7 && |Decimal(r.h)| <= 7
      && |Decimal(n)| <= 7
    ensures
      var h := [0x54, 0x49, 0x4C, 0x45, SPACE] + Decimal(r.x) + [SPACE] + Decimal(r.y) + [SPACE]
        + Decimal(r.w) + [SPACE] + Decimal(r.h) + [SPACE] + Decimal(n);
      Letters(h)
  {
    PlainDecimal(r.x);
    PlainDecimal(r.y);
    PlainDecimal(r.w);
    PlainDecimal(r.h);
    PlainDecimal(n);
    hide Decimal;
    var a := [0x54, 0x49, 0x4C, 0x45, SPACE] + Decimal(r.x);
    var b := a + [SPACE] + Decimal(r.y);
    var c := b + [SPACE] + Decimal(r.w);
    var d := c + [SPACE] + Decimal(r.h);
    assert Plain(a) && Plain(b);
    assert Plain(c) && Plain(d);
  }

  /** Where a complete header leaves the parser. */
  function Opened(m: Msg): Phase {
    match m
    case Img(data) => InData(ImgKind, Rect(0, 0, 0, 0), |data|, [])
    case Tile(r, data) => InData(TileKind, r, |data|, [])
    case Aud(data) => InData(AudKind, Rect(0, 0, 0, 0), |data|, [])
    case FrameEnd => Idle
  }

  lemma {:induction false} DispatchPrinted(hdr: seq<Byte>, m: Msg)
    requires Sendable(m) && Terminated(hdr, Header(m))
    ensures Dispatch(hdr, |Header(m)|) == (Opened(m), m.FrameEnd?)
  {
    var h := Header(m);
    Part(hdr, h, 0, |h|);
    assert forall i :: 0 <= i < |h| ==> hdr[i] == hdr[..|h|][i];
    match m
    case Img(data) =>
      ReadSize(hdr, [0x49, 0x4D, 0x47, SPACE], |data|);
    case Aud(data) =>
      ReadSize(hdr, [0x41, 0x55, 0x44, SPACE], |data|);
    case FrameEnd =>
    case Tile(r, data) =>
      DispatchTile(hdr, r, |data|);
  }

  lemma {:induction false} DispatchTile(hdr: seq<Byte>, r: Rect, n: nat)
    requires 1 <= n <= JPEG_CAP && 1 <= r.w <= 256 && 1 <= r.h <= 256
    requires
      var h := [0x54, 0x49, 0x4C, 0x45, SPACE] + Decimal(r.x) + [SPACE] + Decimal(r.y) + [SPACE]
        + Decimal(r.w) + [SPACE] + Decimal(r.h) + [SPACE] + Decimal(n);
      Terminated(hdr, h)
    ensures
      var h := [0x54, 0x49, 0x4C, 0x45, SPACE] + Decimal(r.x) + [SPACE] + Decimal(r.y) + [SPACE]
        + Decimal(r.w) + [SPACE] + Decimal(r.h) + [SPACE] + Decimal(n);
      Dispatch(hdr, |h|) == (InData(TileKind, r, n, []), false)
  {
    hide Decimal, ReadInt;
    var h := [0x54, 0x49, 0x4C, 0x45, SPACE] + Decimal(r.x) + [SPACE] + Decimal(r.y) + [SPACE]
      + Decimal(r.w) + [SPACE] + Decimal(r.h) + [SPACE] + Decimal(n);
    var tail := Decimal(r.x) + ([SPACE] + Decimal(r.y)) + ([SPACE] + Decimal(r.w)) + ([SPACE] + Decimal(r.h))
      + ([SPACE] + Decimal(n)) + [0 as Byte];
    var whole := h + [0 as Byte];
    assert whole == [0x54, 0x49, 0x4C, 0x45, SPACE] + tail;
    assert hdr[..|h| + 1] == hdr[..|h|] + [hdr[|h|]] == whole;
    assert whole[5..] == tail;
    assert hdr[5..5 + |tail|] == hdr[..|h| + 1][5..] == tail;
    assert hdr[0] == whole[0] && hdr[1] == whole[1] && hdr[2] == whole[2] && hdr[3] == whole[3];
    ReadTile(hdr, r.x, r.y, r.w, r.h, n, tail);
  }

  /** The newline opens the payload, or completes a frame end. */
  lemma {:induction false} FeedNewline(a: Auto, m: Msg)
    requires Sendable(m) && Collecting(a, Header(m), |Header(m)|)
    ensures
      var (b, f) := Advance(a, NEWLINE);
      b.phase == Opened(m) && f == if m.FrameEnd? then Some(FrameEnd) else None
  {
    var h := Header(m);
    var hdr := a.hdr[a.len := 0];
    assert hdr[..|h|] == a.hdr[..a.len] == h[..|h|] == h;
    DispatchPrinted(hdr, m);
    hide Dispatch, Header;
  }

  /** The payload is collected and completes the message. */
  lemma {:induction false} FeedPayload(a: Auto, rest: seq<Byte>)
    requires AutoOk(a) && a.phase.InData? && |a.phase.got| + |rest| == a.phase.size
    ensures
      var (b, ms) := Feed(a, rest);
      b.phase.Idle? && ms == [Completed(a.phase.kind, a.phase.rect, a.phase.got + rest)]
    decreases |rest|
  {
    var (a1, m) := Advance(a, rest[0]);
    var got := a.phase.got;
    if |rest| == 1 {
      assert got + [rest[0]] == got + rest;
      assert Feed(a1, rest[1..]) == (a1, []);
    } else {
      FeedPayload(a1, rest[1..]);
      assert got + [rest[0]] + rest[1..] == got + rest;
    }
  }

  /** One printed message is read as that message. */
  lemma {:induction false} FeedMessage(a: Auto, m: Msg)
    requires AutoOk(a) && a.phase.Idle? && Sendable(m)
    ensures Feed(a, Encode(m)).0.phase.Idle? && Feed(a, Encode(m)).1 == [m]
  {
    hide Advance, AutoOk, Header, Opened, Completed, Letters, Collecting;
    HeaderLetters(m);
    FeedHeader(a, Header(m));
    var (b, none) := Feed(a, Header(m));
    FeedNewline(b, m);
    var (c, f) := Advance(b, NEWLINE);
    FeedOne(b, NEWLINE);
    FeedConcat(a, Header(m), [NEWLINE]);
    FeedConcat(a, Header(m) + [NEWLINE], Payload(m));
    PayloadRead(c, m, f);
  }

  lemma {:induction false} FeedOne(a: Auto, b: Byte)
    requires AutoOk(a)
    ensures
      var (c, f) := Advance(a, b);
      Feed(a, [b]) == (c, if f.Some? then [f.value] else [])
  {
    hide Advance, AutoOk;
    var c := Advance(a, b).0;
    assert [b][1..] == [];
    var h := if Advance(a, b).1.Some? then [Advance(a, b).1.value] else [];
    assert Feed(c, []) == (c, []);
    assert h + [] == h;
  }

  lemma {:induction false} PayloadRead(c: Auto, m: Msg, f: Option<Msg>)
    requires AutoOk(c) && Sendable(m) && c.phase == Opened(m) && f == if m.FrameEnd? then Some(FrameEnd) else None
    ensures Feed(c, Payload(m)).0.phase.Idle?
    ensures (if f.Some? then [f.value] else []) + Feed(c, Payload(m)).1 == [m]
  {
    if m.FrameEnd? {
      assert Feed(c, []) == (c, []);
    } else {
      FeedPayload(c, Payload(m));
      assert [] + Payload(m) == Payload(m);
    }
  }

  /** For any sequence of messages within the limits, what the proxy prints is read back as exactly
      those messages, in order, whatever the header buffer held before. */
  lemma {:induction false} WireRoundTrip(a: Auto, msgs: seq<Msg>)
    requires AutoOk(a) && a.phase.Idle? && forall m <- msgs :: Sendable(m)
    ensures Feed(a, EncodeAll(msgs)).0.phase.Idle? && Feed(a, EncodeAll(msgs)).1 == msgs
    decreases |msgs|
  {
    hide Encode, Sendable, AutoOk;
    if msgs == [] {
      assert Feed(a, []) == (a, []);
    } else {
      FeedMessage(a, msgs[0]);
      var b := Feed(a, Encode(msgs[0])).0;
      FeedConcat(a, Encode(msgs[0]), EncodeAll(msgs[1..]));
      WireRoundTrip(b, msgs[1..]);
      assert [msgs[0]] + msgs[1..] == msgs;
    }
  }
}
