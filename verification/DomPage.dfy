/** Pages that were printed from a document: parsing one gives the document back. */
module DomPage {
  import opened Bytes
  import opened DomText

  /** A document: text, or an element with what it holds. */
  datatype Part = Words(text: seq<Byte>) | Box(tag: seq<Byte>, parts: seq<Part>)

  // ---- Printing ----------------------------------------------------------------------------------

  /** A character in a page: ampersands, opening brackets and blanks are spelled out. */
  function Escaped(c: Byte): (s: seq<Byte>)
    ensures |s| >= 1 && s[0] != 0x3C && 13 !in s[1..]
  {
    if c == 0x26 then [0x26, 0x61, 0x6D, 0x70, 0x3B]
    else if c == 0x3C then [0x26, 0x6C, 0x74, 0x3B]
    else if c == 0x20 then [0x26, 0x6E, 0x62, 0x73, 0x70, 0x3B]
    else [c]
  }

  function Spelled(text: seq<Byte>): seq<Byte> {
    if text == [] then [] else Escaped(text[0]) + Spelled(text[1..])
  }

  function Shown(p: Part): seq<Byte>
    decreases p
  {
    match p
    case Words(text) => Spelled(text)
    case Box(tag, parts) => [0x3C] + tag + [0x3E] + ShownAll(parts) + [0x3C, 0x2F] + tag + [0x3E]
  }

  function ShownAll(parts: seq<Part>): seq<Byte>
    decreases parts
  {
    if parts == [] then [] else Shown(parts[0]) + ShownAll(parts[1..])
  }

  // ---- The nodes of a document -----------------------------------------------------------------------

  /** The nodes of a part under a parent, the first of them with number `next`. */
  function NodesOf(p: Part, parent: int, next: nat): seq<Piece>
    decreases p
  {
    match p
    case Words(text) => [Piece(Text, [], text, parent)]
    case Box(tag, parts) => [Piece(Element, tag, [], parent)] + NodesOfAll(parts, next, next + 1)
  }

  function NodesOfAll(parts: seq<Part>, parent: int, next: nat): seq<Piece>
    decreases parts
  {
    if parts == [] then []
    else
      var first := NodesOf(parts[0], parent, next);
      first + NodesOfAll(parts[1..], parent, next + |first|)
  }

  // ---- Which documents -----------------------------------------------------------------------------

  /** Text a node holds: not empty, at most 127 bytes, no tabs and no line ends. */
  predicate TextFits(text: seq<Byte>) {
    1 <= |text| < TEXT_MAX && forall i :: 0 <= i < |text| ==> text[i] !in [0, 0x09, 0x0D, 0x0A]
  }

  /** A name of at most 15 bytes that no page takes apart or cuts short: no blanks, slashes, brackets, zeros or
      capitals, no exclamation mark in front; not script or style, and not the name of a void element. */
  predicate TagFits(tag: seq<Byte>) {
    && 1 <= |tag| < TAG_MAX && tag[0] != 0x21
    && (forall i :: 0 <= i < |tag| ==> !TagEnds(tag[i]) && tag[i] !in [0, 0x3C, 0x3E] && !(65 <= tag[i] <= 90))
    && !IsVoid(tag) && !SameTag(tag, Chars("script")) && !SameTag(tag, Chars("style"))
  }

  /** Such names and texts throughout, no two texts side by side, and elements nested at most `depth` deep. */
  predicate Fits(parts: seq<Part>, depth: nat)
    decreases parts
  {
    parts != [] ==>
      && (match parts[0]
          case Words(text) => TextFits(text) && (|parts| > 1 ==> parts[1].Box?)
          case Box(tag, inner) => depth > 0 && TagFits(tag) && Fits(inner, depth - 1))
      && Fits(parts[1..], depth)
  }

  // ---- Text ----------------------------------------------------------------------------------------

  function CharMarks(text: seq<Byte>): (m: seq<Mark>)
    ensures |m| == |text| && forall i :: 0 <= i < |m| ==> m[i] == Char(text[i])
  {
    seq(|text|, i requires 0 <= i < |text| => Char(text[i]))
  }

  lemma {:induction false} CollapsedChars(text: seq<Byte>)
    ensures Collapsed(CharMarks(text)) == text
  {
    if text != [] {
      var n := |text| - 1;
      CollapsedChars(text[..n]);
      assert CharMarks(text)[..n] == CharMarks(text[..n]);
      assert text == text[..n] + [text[n]];
    }
  }

  /** The text s stands in the page at offset i. */
  predicate At(html: seq<Byte>, i: nat, s: seq<Byte>) { i + |s| <= |html| && html[i..i + |s|] == s }

  lemma {:induction false} AtParts(html: seq<Byte>, i: nat, a: seq<Byte>, b: seq<Byte>)
    requires At(html, i, a + b)
    ensures At(html, i, a) && At(html, i + |a|, b)
  {
    var s := html[i..i + |a + b|];
    assert html[i..i + |a|] == s[..|a|] == a;
    assert html[i + |a|..i + |a| + |b|] == s[|a|..] == b;
  }

  lemma {:induction false} AtByte(html: seq<Byte>, i: nat, s: seq<Byte>, k: nat)
    requires At(html, i, s) && k < |s|
    ensures i + k < |html| && html[i + k] == s[k]
  {
    assert html[i + k] == html[i..i + |s|][k];
  }

  lemma {:induction false} EscapedMark(html: seq<Byte>, i: nat, c: Byte)
    requires At(html, i, Escaped(c)) && c !in [0x09, 0x0D, 0x0A]
    ensures i < |html| && html[i] != 0x3C && MarkAt(html, i) == (Char(c), i + |Escaped(c)|)
  {
    hide MarkAt;
    AtByte(html, i, Escaped(c), 0);
    if c == 0x26 {
      assert Chars(Entities[0].0) == Escaped(c);
      EntityMark(html, i, 0);
    } else if c == 0x3C {
      AtByte(html, i, Escaped(c), 1);
      assert Chars(Entities[1].0) == Escaped(c);
      NotSpelled(html, i, 0);
      EntityMark(html, i, 1);
    } else if c == 0x20 {
      AtByte(html, i, Escaped(c), 1);
      assert Chars(Entities[5].0) == Escaped(c);
      forall k: nat | k < 5
        ensures !EntityAt(html, i, Entities[k].0)
      {
        NotSpelled(html, i, k);
      }
      EntityMark(html, i, 5);
    } else {
      PlainMark(html, i);
    }
  }

  /** The six entities and their characters: ampersand, both angle brackets, both quotes and the blank. */
  predicate Spells(s: seq<Byte>, c: nat) {
    || (s == [38, 97, 109, 112, 59] && c == 38) || (s == [38, 108, 116, 59] && c == 60)
    || (s == [38, 103, 116, 59] && c == 62) || (s == [38, 113, 117, 111, 116, 59] && c == 34)
    || (s == [38, 97, 112, 111, 115, 59] && c == 39) || (s == [38, 110, 98, 115, 112, 59] && c == 32)
  }

  lemma {:induction false} EntityExact(html: seq<Byte>, i: nat, s: seq<Byte>, c: Byte)
    requires Spells(s, c) && At(html, i, s)
    ensures i < |html| && MarkAt(html, i) == (Char(c), i + |s|)
  {
    hide MarkAt, At;
    AtByte(html, i, s, 0);
    AtByte(html, i, s, 1);
    AtByte(html, i, s, 2);
    var k := if c == 38 then 0 else if c == 60 then 1 else if c == 62 then 2 else if c == 34 then 3
      else if c == 39 then 4 else 5;
    EntityText();
    assert Chars(Entities[k].0) == s;
    forall j: nat | j < k
      ensures !EntityAt(html, i, Entities[j].0)
    {
      if html[i + 1] == Chars(Entities[j].0)[1] {
        NotThird(html, i, j);
      } else {
        NotSpelled(html, i, j);
      }
    }
    EntityMark(html, i, k);
  }

  lemma {:induction false} EntityText()
    ensures Chars(Entities[0].0) == [38, 97, 109, 112, 59] && Chars(Entities[1].0) == [38, 108, 116, 59]
    ensures Chars(Entities[2].0) == [38, 103, 116, 59] && Chars(Entities[3].0) == [38, 113, 117, 111, 116, 59]
    ensures Chars(Entities[4].0) == [38, 97, 112, 111, 115, 59] && Chars(Entities[5].0) == [38, 110, 98, 115, 112, 59]
  {
  }

  lemma {:induction false} NotThird(html: seq<Byte>, i: nat, k: nat)
    requires k < |Entities| && i + 2 < |html| && |Chars(Entities[k].0)| > 2 && html[i + 2] != Chars(Entities[k].0)[2]
    ensures !EntityAt(html, i, Entities[k].0)
  {
  }

  lemma {:induction false} PlainMark(html: seq<Byte>, i: nat)
    requires i < |html| && html[i] !in [0x26, 0x20, 0x09, 0x0D, 0x0A]
    ensures MarkAt(html, i) == (Char(html[i]), i + 1)
  {
  }

  /** The first entity that is spelled out is the one that is read. */
  lemma {:induction false} EntityMark(html: seq<Byte>, i: nat, k: nat)
    requires k < |Entities| && i < |html| && html[i] == 0x26 && At(html, i, Chars(Entities[k].0))
    requires forall j: nat :: j < k ==> !EntityAt(html, i, Entities[j].0)
    ensures MarkAt(html, i) == (Char(Entities[k].1 as int % 256), i + |Chars(Entities[k].0)|)
  {
    hide Chars, MarkAt;
    assert EntityAt(html, i, Entities[k].0);
    var n := EntityNo(html, i, 0);
    assert n == k;
    SpelledMark(html, i, n);
  }

  /** Entities are told apart by their second character, but for two. */
  lemma {:induction false} NotSpelled(html: seq<Byte>, i: nat, k: nat)
    requires k < |Entities| && i + 1 < |html| && html[i + 1] != Chars(Entities[k].0)[1]
    ensures !EntityAt(html, i, Entities[k].0)
  {
  }

  lemma {:induction false} PageChars(html: seq<Byte>, i: nat, text: seq<Byte>, marks: seq<Mark>, st: State)
    requires Sound(st) && At(html, i, Spelled(text)) && forall k :: 0 <= k < |text| ==> text[k] !in [0x09, 0x0D, 0x0A]
    ensures i + |Spelled(text)| <= |html|
    ensures Page(html, i, marks, st) == Page(html, i + |Spelled(text)|, marks + CharMarks(text), st)
    decreases |text|
  {
    hide Page, Sound, MarkAt, Escaped;
    if text == [] {
      assert marks + CharMarks(text) == marks;
    } else {
      var c, rest := text[0], text[1..];
      AtParts(html, i, Escaped(c), Spelled(rest));
      EscapedMark(html, i, c);
      PageMark(html, i, marks, st);
      PageChars(html, i + |Escaped(c)|, rest, marks + [Char(c)], st);
      assert marks + [Char(c)] + CharMarks(rest) == marks + CharMarks(text);
    }
  }

  lemma {:induction false} TextOfChars(text: seq<Byte>)
    requires |text| < TEXT_MAX
    ensures TextOf(CharMarks(text)) == text && TextOf([]) == []
  {
    CollapsedChars(text);
  }

  lemma {:induction false} FlushedText(st: State, text: seq<Byte>, last: bool)
    requires Sound(st) && !st.script && !st.style && text != []
    ensures Flushed(st, text, last) == Grown(st, Text, [], text)
  {
  }

  lemma {:induction false} FlushedNothing(st: State, last: bool)
    requires Sound(st)
    ensures Flushed(st, [], last) == st
  {
  }

  /** Behind a text the page ends or a tag begins. */
  predicate Bounded(html: seq<Byte>, j: nat) { j == |html| || (j < |html| && html[j] == 0x3C) }

  lemma {:induction false} PageWords(html: seq<Byte>, i: nat, text: seq<Byte>, st: State)
    requires Sound(st) && !st.script && !st.style && TextFits(text)
    requires At(html, i, Spelled(text)) && Bounded(html, i + |Spelled(text)|)
    ensures i + |Spelled(text)| <= |html|
    ensures Page(html, i, [], st) == Page(html, i + |Spelled(text)|, [], Grown(st, Text, [], text))
  {
    hide Page, Tagged, TagAt, Spelled, Sound, TextOf, Flushed, CharMarks;
    var j := i + |Spelled(text)|;
    var marks, g := CharMarks(text), Grown(st, Text, [], text);
    PageChars(html, i, text, [], st);
    assert [] + marks == marks;
    TextOfChars(text);
    FlushedText(st, text, j == |html|);
    FlushedNothing(g, j == |html|);
    if j == |html| {
      PageEnd(html, marks, st);
      PageEnd(html, [], g);
    } else {
      PageTag(html, j, marks, st);
      PageTag(html, j, [], g);
    }
  }

  // ---- Tags ----------------------------------------------------------------------------------------

  /** A printed tag is read as the tag it is. */
  lemma {:induction false} TagRead(html: seq<Byte>, i: nat, closing: bool, tag: seq<Byte>)
    requires TagFits(tag) && At(html, i, (if closing then [0x3C, 0x2F] else [0x3C]) + tag + [0x3E])
    ensures
      var end := i + |tag| + if closing then 2 else 1;
      i < |html| && html[i] == 0x3C && end < |html| && TagAt(html, i) == Named(end, closing, tag, false)
  {
    hide IsVoid, SameTag, Chars, TagName, CString, At, TagEnd;
    var open: seq<Byte> := if closing then [0x3C, 0x2F] else [0x3C];
    var p, end := i + |open|, i + |open| + |tag|;
    TagBytes(html, i, open, tag);
    TagEndAt(html, i + 1, end);
    TagNameExact(tag, TAG_MAX - 1, tag);
    CStringExact(tag, tag);
    assert html[p] == tag[0] && html[end - 1] == tag[|tag| - 1];
  }

  lemma {:induction false} TagBytes(html: seq<Byte>, i: nat, open: seq<Byte>, tag: seq<Byte>)
    requires TagFits(tag) && At(html, i, open + tag + [0x3E]) && 1 <= |open| <= 2 && (|open| == 2 ==> open[1] == 0x2F)
    ensures
      var p, end := i + |open|, i + |open| + |tag|;
      && end < |html| && html[i] == open[0] && html[end] == 0x3E && html[p..end] == tag && html[p] == tag[0]
      && html[end - 1] == tag[|tag| - 1] && (|open| == 2 ==> html[i + 1] == 0x2F)
      && forall k :: i + 1 <= k < end ==> html[k] != 0x3E
  {
    hide IsVoid, SameTag, Chars;
    var s := open + tag + [0x3E];
    var p, end := i + |open|, i + |open| + |tag|;
    AtByte(html, i, s, 0);
    AtByte(html, i, s, |s| - 1);
    assert open + tag + [0x3E] == open + (tag + [0x3E]);
    AtParts(html, i, open, tag + [0x3E]);
    AtParts(html, p, tag, [0x3E]);
    forall k | i + 1 <= k < end
      ensures html[k] == s[k - i] != 0x3E
    {
      AtByte(html, i, s, k - i);
      assert s[k - i] == if k < p then 0x2F else tag[k - p];
    }
  }

  lemma {:induction false} TagEndAt(html: seq<Byte>, i: nat, end: nat)
    requires i <= end < |html| && html[end] == 0x3E && forall k :: i <= k < end ==> html[k] != 0x3E
    ensures TagEnd(html, i) == end
  {
  }

  /** An opening tag. */
  lemma {:induction false} PageOpens(html: seq<Byte>, i: nat, tag: seq<Byte>, st: State)
    requires Sound(st) && !st.script && !st.style && |st.stack| < STACK_MAX && TagFits(tag)
    requires At(html, i, [0x3C] + tag + [0x3E])
    ensures i + |tag| + 2 <= |html|
    ensures
      var g := Grown(st, Element, tag, []);
      Page(html, i, [], st) == Page(html, i + |tag| + 2, [], g.(stack := st.stack + [|st.built|]))
  {
    hide Page, TagAt, IsVoid, SameTag, Chars;
    TagRead(html, i, false, tag);
    PageTag(html, i, [], st);
    assert TextOf([]) == [];
  }

  /** A closing tag, when its element is the innermost open one. */
  lemma {:induction false} PageCloses(html: seq<Byte>, i: nat, tag: seq<Byte>, st: State, stack: seq<int>, n: nat)
    requires Sound(st) && !st.script && !st.style && TagFits(tag) && stack != [] && st.stack == stack + [n]
    requires n < |st.built| && st.built[n].tag == tag
    requires At(html, i, [0x3C, 0x2F] + tag + [0x3E])
    ensures i + |tag| + 3 <= |html|
    ensures Sound(st.(stack := stack)) && Page(html, i, [], st) == Page(html, i + |tag| + 3, [], st.(stack := stack))
  {
    hide Page, TagAt, IsVoid, Chars;
    assert [0x3C, 0x2F] + tag + [0x3E] == [0x3C, 0x2F] + tag + [0x3E];
    TagRead(html, i, true, tag);
    PageTag(html, i, [], st);
    assert TextOf([]) == [];
    assert st.stack[|st.stack| - 1] == n && SameTag(tag, tag);
    assert CutBack(st, tag, |st.stack|) == |stack|;
    assert st.stack[..|stack|] == stack;
  }

  // ---- Documents -----------------------------------------------------------------------------------

  /** The state behind a document. */
  function Behind(st: State, built: seq<Piece>): State { st.(built := st.built + built) }

  lemma {:induction false} PagePart(html: seq<Byte>, i: nat, p: Part, st: State)
    requires Sound(st) && !st.script && !st.style && |st.stack| <= STACK_MAX && Fits([p], STACK_MAX - |st.stack|)
    requires At(html, i, Shown(p)) && (p.Words? ==> Bounded(html, i + |Shown(p)|))
    ensures
      var top := st.stack[|st.stack| - 1];
      var r := Behind(st, NodesOf(p, top, |st.built|));
      && i + |Shown(p)| <= |html| && Sound(r) && Page(html, i, [], st) == Page(html, i + |Shown(p)|, [], r)
    decreases p, 1
  {
    hide Page, Spelled;
    var top := st.stack[|st.stack| - 1];
    match p {
      case Words(text) =>
        PageWords(html, i, text, st);
      case Box(tag, parts) =>
        PageBox(html, i, tag, parts, st);
    }
  }

  lemma {:induction false} PageBox(html: seq<Byte>, i: nat, tag: seq<Byte>, parts: seq<Part>, st: State)
    requires Sound(st) && !st.script && !st.style && |st.stack| < STACK_MAX && TagFits(tag)
      && Fits(parts, STACK_MAX - |st.stack| - 1)
    requires At(html, i, Shown(Box(tag, parts)))
    ensures
      var p, top := Box(tag, parts), st.stack[|st.stack| - 1];
      var r := Behind(st, NodesOf(p, top, |st.built|));
      && i + |Shown(p)| <= |html| && Sound(r) && Page(html, i, [], st) == Page(html, i + |Shown(p)|, [], r)
    decreases Box(tag, parts), 0
  {
    hide Page, TagFits, Fits, Sound, Grown, NodesOf, Shown, ShownAll, NodesOfAll;
    var inner := ShownAll(parts);
    var open: seq<Byte>, close: seq<Byte> := [0x3C] + tag + [0x3E], [0x3C, 0x2F] + tag + [0x3E];
    BoxShown(tag, parts);
    AtParts(html, i, open, inner + close);
    AtParts(html, i + |open|, inner, close);
    var n := |st.built|;
    var s1 := Grown(st, Element, tag, []).(stack := st.stack + [n]);
    BoxOpened(st, tag);
    PageOpens(html, i, tag, st);
    AtByte(html, i + |open| + |inner|, close, 0);
    PageAll(html, i + |open|, parts, s1);
    BoxClosed(st, tag, parts);
    PageCloses(html, i + |open| + |inner|, tag, Behind(s1, NodesOfAll(parts, n, n + 1)), st.stack, n);
  }

  lemma {:induction false} BoxShown(tag: seq<Byte>, parts: seq<Part>)
    ensures Shown(Box(tag, parts)) == [0x3C] + tag + [0x3E] + (ShownAll(parts) + ([0x3C, 0x2F] + tag + [0x3E]))
  {
    hide ShownAll;
  }

  lemma {:induction false} BoxOpened(st: State, tag: seq<Byte>)
    requires Sound(st)
    ensures Sound(Grown(st, Element, tag, []).(stack := st.stack + [|st.built|]))
    ensures
      var g := Grown(st, Element, tag, []);
      |g.built| == |st.built| + 1 && g.script == st.script && g.style == st.style
  {
  }

  /** Inside an element it is the innermost open one; behind it the page stands as if it were one node more. */
  lemma {:induction false} BoxClosed(st: State, tag: seq<Byte>, parts: seq<Part>)
    requires Sound(st)
    ensures
      var n := |st.built|;
      var s1 := Grown(st, Element, tag, []).(stack := st.stack + [n]);
      var s2 := Behind(s1, NodesOfAll(parts, n, n + 1));
      && st.stack != [] && n < |s2.built| && s2.built[n].tag == tag && s2.stack == st.stack + [n]
      && s2.(stack := st.stack) == Behind(st, NodesOf(Box(tag, parts), st.stack[|st.stack| - 1], n))
  {
    hide NodesOfAll;
    var n := |st.built|;
    var top := st.stack[|st.stack| - 1];
    var kids := NodesOfAll(parts, n, n + 1);
    assert NodesOf(Box(tag, parts), top, n) == [Piece(Element, tag, [], top)] + kids;
    assert st.built + ([Piece(Element, tag, [], top)] + kids) == st.built + [Piece(Element, tag, [], top)] + kids;
  }

  lemma {:induction false} PageAll(html: seq<Byte>, i: nat, parts: seq<Part>, st: State)
    requires Sound(st) && !st.script && !st.style && |st.stack| <= STACK_MAX && Fits(parts, STACK_MAX - |st.stack|)
    requires At(html, i, ShownAll(parts)) && Bounded(html, i + |ShownAll(parts)|)
    ensures
      var top := st.stack[|st.stack| - 1];
      var r := Behind(st, NodesOfAll(parts, top, |st.built|));
      && i + |ShownAll(parts)| <= |html| && Sound(r)
      && Page(html, i, [], st) == Page(html, i + |ShownAll(parts)|, [], r)
    decreases parts, 2
  {
    hide Page, Shown, NodesOf, TagFits, TextFits;
    var top := st.stack[|st.stack| - 1];
    if parts == [] {
      assert Behind(st, []) == st;
    } else {
      var p, rest := parts[0], parts[1..];
      AtParts(html, i, Shown(p), ShownAll(rest));
      var j := i + |Shown(p)|;
      if p.Words? {
        NextBounded(html, j, rest);
      }
      PagePart(html, i, p, st);
      var first := NodesOf(p, top, |st.built|);
      var s1 := Behind(st, first);
      PageAll(html, j, rest, s1);
      assert Behind(s1, NodesOfAll(rest, top, |s1.built|)) == Behind(st, NodesOfAll(parts, top, |st.built|));
    }
  }

  /** An element begins with a bracket. */
  lemma {:induction false} NextBounded(html: seq<Byte>, j: nat, rest: seq<Part>)
    requires At(html, j, ShownAll(rest)) && Bounded(html, j + |ShownAll(rest)|) && (rest != [] ==> rest[0].Box?)
    ensures Bounded(html, j)
  {
    if rest != [] {
      AtParts(html, j, Shown(rest[0]), ShownAll(rest[1..]));
      AtByte(html, j, Shown(rest[0]), 0);
    }
  }

  /** A printed page holds no line end, so no header is taken off it. */
  lemma {:induction false} ShownClean(parts: seq<Part>, depth: nat)
    requires Fits(parts, depth)
    ensures 13 !in ShownAll(parts)
    decreases parts
  {
    hide IsVoid, SameTag, Chars;
    if parts != [] {
      match parts[0] {
        case Words(text) => SpelledClean(text);
        case Box(tag, inner) => ShownClean(inner, depth - 1);
      }
      ShownClean(parts[1..], depth);
    }
  }

  lemma {:induction false} SpelledClean(text: seq<Byte>)
    requires forall i :: 0 <= i < |text| ==> text[i] != 13
    ensures 13 !in Spelled(text)
  {
    if text != [] {
      SpelledClean(text[1..]);
    }
  }

  /** A printed document is read back as its nodes, under the body every page starts with. */
  lemma {:induction false} PageRoundTrip(parts: seq<Part>)
    requires Fits(parts, STACK_MAX - 1)
    ensures
      var html := ShownAll(parts);
      Page(html, BodyOffset(html), [], START) == START.built + NodesOfAll(parts, 1, 2)
  {
    hide Page, Fits, ShownAll;
    var html := ShownAll(parts);
    ShownClean(parts, STACK_MAX - 1);
    BodyExact(html, 0);
    assert forall i: nat :: !BlankLine(html, i);
    StartSound();
    assert html[0..|html|] == html;
    PageAll(html, 0, parts, START);
    PageEnd(html, [], Behind(START, NodesOfAll(parts, 1, 2)));
  }
}
