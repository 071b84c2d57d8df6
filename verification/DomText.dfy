/** What a page of HTML says: its tags, its text, and the nodes that come of them. */
module DomText {
  import opened Bytes

  const TEXT_MAX: nat := 128
  const TAG_MAX: nat := 16
  const STACK_MAX: nat := 32

  datatype Kind = NoKind | Element | Text

  // ---- Tags ---------------------------------------------------------------------------------------

  function Lower(c: Byte): Byte { if 0x41 <= c <= 0x5A then c + 32 else c }

  /** A C string ends at its first zero. */
  function CString(s: seq<Byte>): (r: seq<Byte>)
    ensures |r| <= |s|
  {
    if s == [] || s[0] == 0 then [] else [s[0]] + CString(s[1..])
  }

  /** Equality up to ASCII case. */
  predicate SameTag(a: seq<Byte>, b: seq<Byte>) {
    |a| == |b| && forall i :: 0 <= i < |a| ==> Lower(a[i]) == Lower(b[i])
  }

  predicate TagEnds(c: Byte) { c in [0x20, 0x2F, 0x09, 0x0D, 0x0A] }

  /** The tag name at the front of a tag's text: at most 15 characters, lower-cased. */
  function TagName(s: seq<Byte>, room: nat): (t: seq<Byte>)
    ensures |t| <= room
    decreases |s|
  {
    if s == [] || room == 0 || TagEnds(s[0]) then [] else [Lower(s[0])] + TagName(s[1..], room - 1)
  }

  function Chars(s: string): (r: seq<Byte>)
    ensures |r| == |s|
  {
    seq(|s|, i requires 0 <= i < |s| => s[i] as int % 256)
  }

  predicate IsVoid(tag: seq<Byte>) {
    exists v <- VoidTags :: SameTag(tag, Chars(v))
  }

  const VoidTags: seq<string> :=
    ["br", "img", "hr", "input", "meta", "link", "area", "base", "col", "embed", "source", "track", "wbr"]

  /** The named entities and the characters they stand for. */
  const Entities: seq<(string, char)> :=
    [("&amp;", '&'), ("&lt;", '<'), ("&gt;", '>'), ("&quot;", '"'), ("&apos;", '\''), ("&nbsp;", ' ')]

  /** What a tag says: no closing bracket in the page, nothing to act on, or a name. `slashed` tells that
      the tag ends with a slash. */
  datatype TagText = Unended | Blank(end: nat) | Named(end: nat, closing: bool, name: seq<Byte>, slashed: bool)

  /** Offset of the first closing bracket at or after i, |html| when there is none. */
  function TagEnd(html: seq<Byte>, i: nat): (end: nat)
    requires i <= |html|
    ensures i <= end <= |html| && (forall k :: i <= k < end ==> html[k] != 0x3E) && (end < |html| ==> html[end] == 0x3E)
    decreases |html| - i
  {
    if i == |html| || html[i] == 0x3E then i else TagEnd(html, i + 1)
  }

  /** The tag whose opening bracket is at offset i. */
  function TagAt(html: seq<Byte>, i: nat): TagText
    requires i < |html|
  {
    var end := TagEnd(html, i + 1);
    if end == |html| then Unended
    else
      var closing := html[i + 1] == 0x2F;
      var p := if closing then i + 2 else i + 1;
      if end == p || html[p] == 0x21 then Blank(end)
      else Named(end, closing, CString(TagName(html[p..end], TAG_MAX - 1)), html[end - 1] == 0x2F)
  }

  /** The tag calls for a new element. */
  predicate Adds(html: seq<Byte>, i: nat, inScript: bool, inStyle: bool)
    requires i < |html|
  {
    var t := TagAt(html, i);
    && t.Named? && !inScript && !inStyle && !t.closing
    && !SameTag(t.name, Chars("script")) && !SameTag(t.name, Chars("style"))
  }

  /** A new element of this name stays open. */
  predicate Opens(name: seq<Byte>, slashed: bool, stack: seq<int>) {
    !IsVoid(name) && |stack| < STACK_MAX && !slashed
  }

  /** This entity is spelled out at offset i. */
  predicate EntityAt(html: seq<Byte>, i: nat, e: string) {
    i + |Chars(e)| <= |html| && html[i..i + |Chars(e)|] == Chars(e)
  }

  /** Offset of the body behind a response header: taken when the page starts with an H. */
  function BodyOffset(html: seq<Byte>): (o: nat)
    ensures o <= |html|
  {
    if |html| >= 5 && html[0] in [0x48, 0x68] then HeaderEnd(html, 0) else 0
  }

  function HeaderEnd(html: seq<Byte>, i: nat): (o: nat)
    requires i <= |html|
    ensures o <= |html|
    decreases |html| - i
  {
    if i + 3 >= |html| then 0
    else if html[i..i + 4] == [0x0D, 0x0A, 0x0D, 0x0A] then i + 4
    else HeaderEnd(html, i + 1)
  }

  lemma {:induction false} SameTagExact(a: seq<Byte>, b: seq<Byte>)
    ensures SameTag(a, b) <==> CaseAlike(a, b)
  {
    forall i | 0 <= i < |a| && i < |b|
      ensures Lower(a[i]) == Lower(b[i]) <==> CaseTwins(a[i], b[i])
    {
      var x: nat, y: nat := a[i], b[i];
    }
  }

  /** Blank, slash, tab, carriage return and line feed. */
  predicate Ends(c: nat) { c in [32, 47, 9, 13, 10] }

  /** What stands before the first such byte, at most `room` bytes of it, with small letters. */
  predicate NameIn(s: seq<Byte>, room: nat, t: seq<Byte>) {
    && |t| <= |s| && |t| <= room && (|t| < |s| && |t| < room ==> Ends(s[|t|]))
    && forall i :: 0 <= i < |t| ==> !Ends(s[i]) && t[i] == if 65 <= s[i] <= 90 then s[i] + 32 else s[i]
  }

  lemma {:induction false} TagNameIn(s: seq<Byte>, room: nat)
    ensures NameIn(s, room, TagName(s, room))
    decreases |s|
  {
    if s != [] && room > 0 && !TagEnds(s[0]) {
      TagNameIn(s[1..], room - 1);
      var t, u := TagName(s, room), TagName(s[1..], room - 1);
      assert t[1..] == u;
      assert forall i :: 0 < i < |t| ==> t[i] == u[i - 1] && s[i] == s[1..][i - 1];
    }
  }

  lemma {:induction false} TagNameExact(s: seq<Byte>, room: nat, t: seq<Byte>)
    ensures t == TagName(s, room) <==> NameIn(s, room, t)
  {
    hide TagName;
    TagNameIn(s, room);
    var u := TagName(s, room);
    if NameIn(s, room, t) {
      assert |t| == |u|;
      assert forall i :: 0 <= i < |t| ==> t[i] == u[i];
    }
  }

  /** The thirteen void elements of HTML (section 13.1.2 of the HTML Living Standard). */
  lemma {:induction false} VoidExact(tag: seq<Byte>)
    ensures IsVoid(tag) <==>
      || CaseAlike(tag, Chars("area")) || CaseAlike(tag, Chars("base")) || CaseAlike(tag, Chars("br"))
      || CaseAlike(tag, Chars("col")) || CaseAlike(tag, Chars("embed")) || CaseAlike(tag, Chars("hr"))
      || CaseAlike(tag, Chars("img")) || CaseAlike(tag, Chars("input")) || CaseAlike(tag, Chars("link"))
      || CaseAlike(tag, Chars("meta")) || CaseAlike(tag, Chars("source")) || CaseAlike(tag, Chars("track"))
      || CaseAlike(tag, Chars("wbr"))
  {
    hide SameTag, CaseAlike, Chars;
    forall v: string
      ensures SameTag(tag, Chars(v)) <==> CaseAlike(tag, Chars(v))
    {
      SameTagExact(tag, Chars(v));
    }
    assert VoidTags[0] == "br" && VoidTags[1] == "img" && VoidTags[2] == "hr" && VoidTags[3] == "input";
    assert VoidTags[4] == "meta" && VoidTags[5] == "link" && VoidTags[6] == "area" && VoidTags[7] == "base";
    assert VoidTags[8] == "col" && VoidTags[9] == "embed" && VoidTags[10] == "source" && VoidTags[11] == "track";
    assert VoidTags[12] == "wbr" && |VoidTags| == 13;
  }

  /** The name ends before the first zero byte. */
  lemma {:induction false} CStringExact(s: seq<Byte>, r: seq<Byte>)
    ensures r == CString(s) <==>
      |r| <= |s| && r == s[..|r|] && (forall i :: 0 <= i < |r| ==> s[i] != 0) && (|r| < |s| ==> s[|r|] == 0)
  {
    if s != [] && s[0] != 0 && r != [] {
      CStringExact(s[1..], r[1..]);
      assert r == [r[0]] + r[1..];
      assert |r| <= |s| ==> s[..|r|] == [s[0]] + s[1..][..|r| - 1];
      assert forall i :: 1 <= i < |s| ==> s[i] == s[1..][i - 1];
    }
  }

  /** Two line ends in a row at offset i. */
  predicate BlankLine(html: seq<Byte>, i: nat) {
    i + 4 <= |html| && html[i] == 13 && html[i + 1] == 10 && html[i + 2] == 13 && html[i + 3] == 10
  }

  /** A page that starts with an H and has a blank line starts behind the first one; any other at its front. */
  lemma {:induction false} BodyExact(html: seq<Byte>, o: nat)
    ensures o == BodyOffset(html) <==>
      if |html| >= 5 && (html[0] == 72 || html[0] == 104) && exists i: nat :: BlankLine(html, i)
      then o >= 4 && BlankLine(html, o - 4) && forall i: nat :: i < o - 4 ==> !BlankLine(html, i)
      else o == 0
  {
    if |html| >= 5 {
      HeaderExact(html, 0);
    }
  }

  lemma {:induction false} HeaderExact(html: seq<Byte>, i: nat)
    requires i <= |html|
    ensures
      var o := HeaderEnd(html, i);
      if o == 0 then forall k: nat :: i <= k ==> !BlankLine(html, k)
      else o >= i + 4 && BlankLine(html, o - 4) && forall k: nat :: i <= k < o - 4 ==> !BlankLine(html, k)
    decreases |html| - i
  {
    if i + 3 < |html| {
      assert html[i..i + 4] == [html[i], html[i + 1], html[i + 2], html[i + 3]];
      HeaderExact(html, i + 1);
    }
  }

  // ---- Text -----------------------------------------------------------------------------------------

  /** A piece of text: blank space or a character. */
  datatype Mark = Gap | Char(c: Byte)

  /** The first entity from number k on that is spelled at offset i, |Entities| when there is none. */
  function EntityNo(html: seq<Byte>, i: nat, k: nat): (n: nat)
    requires k <= |Entities|
    ensures k <= n <= |Entities| && (n < |Entities| ==> EntityAt(html, i, Entities[n].0))
    ensures forall j :: k <= j < n ==> !EntityAt(html, i, Entities[j].0)
    decreases |Entities| - k
  {
    if k == |Entities| || EntityAt(html, i, Entities[k].0) then k else EntityNo(html, i, k + 1)
  }

  /** The mark at offset i and the offset behind it. */
  function MarkAt(html: seq<Byte>, i: nat): (r: (Mark, nat))
    requires i < |html|
    ensures i < r.1 <= |html|
  {
    var k := EntityNo(html, i, 0);
    if html[i] == 0x26 && k < |Entities| then (Char(Entities[k].1 as int % 256), i + |Entities[k].0|)
    else (if html[i] in [0x20, 0x09, 0x0D, 0x0A] then Gap else Char(html[i]), i + 1)
  }

  lemma {:induction false} IsEntityAt(html: seq<Byte>, i: nat, e: string)
    ensures EntityAt(html, i, e) <==> i + |Chars(e)| <= |html| && html[i..i + |Chars(e)|] == Chars(e)
  {
  }

  /** The mark at an ampersand. */
  lemma {:induction false} SpelledMark(html: seq<Byte>, i: nat, k: nat)
    requires i < |html| && html[i] == 0x26 && k == EntityNo(html, i, 0)
    ensures k < |Entities| ==>
      && |Chars(Entities[k].0)| == |Entities[k].0|
      && MarkAt(html, i) == (Char(Entities[k].1 as int % 256), i + |Entities[k].0|)
    ensures k == |Entities| ==> MarkAt(html, i) == (Char(html[i]), i + 1)
  {
  }

  /** Offset of the first opening bracket at or after i, |html| when there is none. */
  function TextEnd(html: seq<Byte>, i: nat): (j: nat)
    requires i <= |html|
    ensures i <= j <= |html| && (forall k :: i <= k < j ==> html[k] != 0x3C) && (j < |html| ==> html[j] == 0x3C)
    decreases |html| - i
  {
    if i == |html| || html[i] == 0x3C then i else TextEnd(html, i + 1)
  }

  /** The marks from offset i up to the next opening bracket. */
  function Marks(html: seq<Byte>, i: nat): seq<Mark>
    requires i <= |html|
    decreases |html| - i
  {
    if i == |html| || html[i] == 0x3C then [] else [MarkAt(html, i).0] + Marks(html, MarkAt(html, i).1)
  }

  /** The text of the marks: of each gap one blank, and none of a gap at the front. */
  function Collapsed(marks: seq<Mark>): (t: seq<Byte>)
    ensures |t| <= |marks|
  {
    if marks == [] then []
    else
      var n := |marks| - 1;
      Collapsed(marks[..n])
      + if marks[n].Char? then [marks[n].c] else if n == 0 || marks[n - 1].Gap? then [] else [0x20]
  }

  /** The text a node gets: what its buffer holds. */
  function TextOf(marks: seq<Mark>): (t: seq<Byte>)
    ensures |t| < TEXT_MAX
  {
    var t := Collapsed(marks);
    if |t| < TEXT_MAX then t else t[..TEXT_MAX - 1]
  }

  /** Append a character unless the buffer is full. */
  function Put(text: seq<Byte>, c: Byte): (r: seq<Byte>)
    ensures |text| < TEXT_MAX ==> |r| < TEXT_MAX
  {
    if |text| < TEXT_MAX - 1 then text + [c] else text
  }

  /** One more mark. */
  lemma {:induction false} TextPlus(marks: seq<Mark>, m: Mark)
    ensures TextOf(marks + [m]) ==
      if m.Char? then Put(TextOf(marks), m.c)
      else if marks == [] || marks[|marks| - 1].Gap? then TextOf(marks) else Put(TextOf(marks), 0x20)
  {
    var n := |marks|;
    assert (marks + [m])[..n] == marks;
  }

  // ---- The nodes of a page ------------------------------------------------------------------------

  /** A node as the page gives it, and the number of the node it hangs under. */
  datatype Piece = Piece(kind: Kind, tag: seq<Byte>, text: seq<Byte>, parent: int)

  /** Where the page stands: the open elements, whether a script or style is being passed over, and the
      nodes so far. */
  datatype State = State(stack: seq<int>, script: bool, style: bool, built: seq<Piece>)

  predicate Sound(st: State) {
    st.stack != [] && forall k :: 0 <= k < |st.stack| ==> 0 <= st.stack[k] < |st.built|
  }

  /** Every page starts with a root and a body. */
  const START: State := State([1], false, false,
    [Piece(Element, Chars("html"), [], -1), Piece(Element, Chars("body"), [], 0)])

  lemma {:induction false} StartSound()
    ensures Sound(START)
  {
  }

  function Grown(st: State, kind: Kind, tag: seq<Byte>, text: seq<Byte>): (r: State)
    requires Sound(st)
    ensures Sound(r)
  {
    st.(built := st.built + [Piece(kind, tag, text, st.stack[|st.stack| - 1])])
  }

  /** Text becomes a node unless it is empty or belongs to a script or style that is followed by a tag. */
  function Flushed(st: State, text: seq<Byte>, last: bool): (r: State)
    requires Sound(st)
    ensures Sound(r) && st.built <= r.built && r == st.(built := r.built)
  {
    if text != [] && (last || (!st.script && !st.style)) then Grown(st, Text, [], text) else st
  }

  /** The length of the stack that a closing tag leaves: below the innermost open element of that name, the
      body not counted; the whole stack when there is none. */
  function CutBack(st: State, tag: seq<Byte>, k: nat): (n: nat)
    requires Sound(st) && 1 <= k <= |st.stack|
    ensures 1 <= n <= |st.stack|
  {
    if k == 1 then |st.stack|
    else if SameTag(st.built[st.stack[k - 1]].tag, tag) then k - 1
    else CutBack(st, tag, k - 1)
  }

  /** The tag at offset i. */
  function Tagged(html: seq<Byte>, i: nat, st: State): (r: State)
    requires i < |html| && Sound(st)
    ensures Sound(r) && st.built <= r.built
  {
    match TagAt(html, i)
    case Named(_, closing, name, slashed) =>
      if st.script then st.(script := !(closing && SameTag(name, Chars("script"))))
      else if st.style then st.(style := !(closing && SameTag(name, Chars("style"))))
      else if closing then st.(stack := st.stack[..CutBack(st, name, |st.stack|)])
      else if SameTag(name, Chars("script")) then st.(script := true)
      else if SameTag(name, Chars("style")) then st.(style := true)
      else
        var g := Grown(st, Element, name, []);
        if Opens(name, slashed, st.stack) then g.(stack := st.stack + [|st.built|]) else g
    case _ => st
  }

  /** The nodes of a page read on from offset i, with the marks collected since the last tag. */
  function Page(html: seq<Byte>, i: nat, marks: seq<Mark>, st: State): (built: seq<Piece>)
    requires i <= |html| && Sound(st)
    ensures st.built <= built
    decreases |html| - i
  {
    var j := TextEnd(html, i);
    var s := Flushed(st, TextOf(marks + Marks(html, i)), j == |html|);
    if j == |html| || TagAt(html, j).Unended? then s.built
    else Page(html, TagAt(html, j).end + 1, [], Tagged(html, j, s))
  }

  /** An entity holds no opening bracket. */
  lemma {:induction false} EntityClean(k: nat)
    requires k < |Entities|
    ensures |Chars(Entities[k].0)| == |Entities[k].0| && 0x3C !in Chars(Entities[k].0)
  {
    assert Entities[k].0 in ["&amp;", "&lt;", "&gt;", "&quot;", "&apos;", "&nbsp;"];
  }

  lemma {:induction false} TextEndLater(html: seq<Byte>, i: nat, j: nat)
    requires i <= j <= |html| && forall k :: i <= k < j ==> html[k] != 0x3C
    ensures TextEnd(html, j) == TextEnd(html, i)
  {
  }

  lemma {:induction false} MarkInside(html: seq<Byte>, i: nat)
    requires i < |html| && html[i] != 0x3C
    ensures TextEnd(html, MarkAt(html, i).1) == TextEnd(html, i)
  {
    hide Chars, TextEnd;
    var k := EntityNo(html, i, 0);
    var j := MarkAt(html, i).1;
    if html[i] == 0x26 && k < |Entities| {
      EntityClean(k);
      var e := Chars(Entities[k].0);
      assert forall q :: i <= q < j ==> html[q] == html[i..j][q - i] == e[q - i];
    }
    TextEndLater(html, i, j);
  }

  lemma {:induction false} PageMark(html: seq<Byte>, i: nat, marks: seq<Mark>, st: State)
    requires i < |html| && html[i] != 0x3C && Sound(st)
    ensures Page(html, i, marks, st) == Page(html, MarkAt(html, i).1, marks + [MarkAt(html, i).0], st)
  {
    hide Flushed, TextOf, Tagged, TagAt, MarkAt;
    MarkInside(html, i);
    var (m, next) := MarkAt(html, i);
    assert marks + ([m] + Marks(html, next)) == marks + [m] + Marks(html, next);
  }

  lemma {:induction false} PageTag(html: seq<Byte>, i: nat, marks: seq<Mark>, st: State)
    requires i < |html| && html[i] == 0x3C && Sound(st)
    ensures
      var s := Flushed(st, TextOf(marks), false);
      Page(html, i, marks, st) ==
        if TagAt(html, i).Unended? then s.built else Page(html, TagAt(html, i).end + 1, [], Tagged(html, i, s))
  {
    hide Flushed, TextOf, Tagged, TagAt, MarkAt;
    assert marks + [] == marks;
  }

  lemma {:induction false} PageEnd(html: seq<Byte>, marks: seq<Mark>, st: State)
    requires Sound(st)
    ensures Page(html, |html|, marks, st) == Flushed(st, TextOf(marks), true).built
  {
    hide Flushed, TextOf, Tagged, TagAt, MarkAt;
    assert marks + [] == marks;
  }
}
