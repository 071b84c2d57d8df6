/** The HTML tree builder: a node arena, sibling links, and the stack of open elements. */
module Dom {
  import opened Bytes
  import opened DomText

  const NODE_MAX: nat := 512

  /** One arena node. Links are indices, -1 for none. */
  datatype Node = Node(inUse: bool, kind: Kind, tag: seq<Byte>, text: seq<Byte>, parent: int, firstChild: int,
      nextSibling: int)

  const Fresh: Node := Node(true, NoKind, [], [], -1, -1, -1)

  // ---- Document order ----------------------------------------------------------------------------

  /** Links lead forward inside the arena, to nodes in use. */
  predicate Forward(ns: seq<Node>) {
    forall i :: 0 <= i < |ns| ==>
      && ns[i].inUse
      && (ns[i].firstChild < 0 || i < ns[i].firstChild < |ns|)
      && (ns[i].nextSibling < 0 || i < ns[i].nextSibling < |ns|)
  }

  /** dom_visit: the node, then its children from first to last. */
  function Visit(ns: seq<Node>, i: int): (out: seq<int>)
    requires Forward(ns) && i < |ns|
    decreases |ns| - i, 1
  {
    if i < 0 then [] else if !ns[i].inUse then [] else [i] + VisitFrom(ns, ns[i].firstChild, i)
  }

  /** A child and its later siblings. */
  function VisitFrom(ns: seq<Node>, c: int, above: int): (out: seq<int>)
    requires Forward(ns) && c < |ns| && 0 <= above && (c < 0 || above < c)
    decreases |ns| - above, 0
  {
    if c < 0 then [] else Visit(ns, c) + VisitFrom(ns, ns[c].nextSibling, c)
  }

  function Range(a: int, b: int): (r: seq<int>)
    requires a <= b
    ensures |r| == b - a && forall k :: 0 <= k < |r| ==> r[k] == a + k
  {
    seq(b - a, k requires 0 <= k < b - a => a + k)
  }

  lemma {:induction false} RangeSplit(a: int, b: int, c: int)
    requires a <= b <= c
    ensures Range(a, c) == Range(a, b) + Range(b, c)
  {
  }

  /** Every node's subtree is the stretch of the arena from it to ends[i]; links follow from that. */
  ghost predicate Laid(ns: seq<Node>, ends: seq<int>) {
    && |ends| == |ns|
    && forall i :: 0 <= i < |ns| ==> NodeOk(ns, ends, i)
  }

  ghost predicate NodeOk(ns: seq<Node>, ends: seq<int>, i: int)
    requires 0 <= i < |ns| == |ends|
  {
    && ns[i].inUse && i < ends[i] <= |ns|
    && -1 <= ns[i].parent < i && (ns[i].parent < 0 <==> i == 0)
    && (i > 0 ==> ends[i] <= ends[ns[i].parent])
    && (i == 0 ==> ends[i] == |ns| && ns[i].nextSibling < 0)
    && (if ends[i] == i + 1 then ns[i].firstChild < 0
        else ns[i].firstChild == i + 1 && ns[i + 1].parent == i)
    && (i > 0 ==>
          if ends[i] < ends[ns[i].parent] then ns[i].nextSibling == ends[i] < |ns| && ns[ends[i]].parent == ns[i].parent
          else ns[i].nextSibling < 0)
    && (forall j :: i < j < ends[i] ==> ns[j].parent >= i)
  }

  lemma {:induction false} LaidForward(ns: seq<Node>, ends: seq<int>)
    requires Laid(ns, ends)
    ensures Forward(ns)
  {
    forall i | 0 <= i < |ns|
      ensures ns[i].inUse
      ensures ns[i].firstChild < 0 || i < ns[i].firstChild < |ns|
      ensures ns[i].nextSibling < 0 || i < ns[i].nextSibling < |ns|
    {
      assert NodeOk(ns, ends, i);
      if i > 0 {
        assert NodeOk(ns, ends, ns[i].parent);
      }
    }
  }

  /** The visit of a node covers its stretch in order. */
  lemma {:induction false} VisitRange(ns: seq<Node>, ends: seq<int>, i: int)
    requires Laid(ns, ends) && Forward(ns) && 0 <= i < |ns|
    ensures i <= ends[i] && Visit(ns, i) == Range(i, ends[i])
    decreases |ns| - i, 1
  {
    assert NodeOk(ns, ends, i);
    hide Laid, Forward, NodeOk;
    if ends[i] > i + 1 {
      SiblingsRange(ns, ends, i + 1, i);
    }
    assert [i] + Range(i + 1, ends[i]) == Range(i, ends[i]);
  }

  lemma {:induction false} SiblingsRange(ns: seq<Node>, ends: seq<int>, c: int, above: int)
    requires Laid(ns, ends) && Forward(ns) && 0 <= above < c < |ns|
    ensures 0 <= ns[c].parent < c && c <= ends[ns[c].parent]
    ensures VisitFrom(ns, c, above) == Range(c, ends[ns[c].parent])
    decreases |ns| - above, 0
  {
    assert NodeOk(ns, ends, c);
    var p := ns[c].parent;
    assert NodeOk(ns, ends, p);
    hide Laid, Forward, NodeOk;
    VisitRange(ns, ends, c);
    if ends[c] < ends[p] {
      SiblingsRange(ns, ends, ends[c], c);
      RangeSplit(c, ends[c], ends[p]);
    }
  }

  // ---- The open elements and the next node -----------------------------------------------------------

  /** The stack of open elements runs down the rightmost path: each one's stretch is still open, and
      each was added to the one below it; the lowest is the body, a child of the root. */
  ghost predicate Opened(ns: seq<Node>, ends: seq<int>, stack: seq<int>) {
    && 1 <= |stack| <= STACK_MAX && |ends| == |ns| >= 2 && stack[0] == 1
    && (forall k :: 0 <= k < |stack| ==> 0 < stack[k] < |ns| && ends[stack[k]] == |ns|)
    && (forall k :: 0 < k < |stack| ==> ns[stack[k]].parent == stack[k - 1])
    && ns[1].parent == 0
  }

  ghost predicate OnSpine(stack: seq<int>, i: int) { i == 0 || i in stack }

  /** The stretches after a node is added: those of the root and the open elements grow. */
  ghost function GrownEnds(ends: seq<int>, stack: seq<int>): (r: seq<int>)
    ensures |r| == |ends| + 1
  {
    seq(|ends| + 1, i requires 0 <= i < |ends| + 1 =>
      if i == |ends| || OnSpine(stack, i) then |ends| + 1 else ends[i])
  }

  /** The last child of the top element, found by walking its children. */
  ghost predicate LastChild(ns: seq<Node>, t: int, c: int) {
    0 <= t < c < |ns| && ns[c].parent == t && ns[c].nextSibling < 0
  }

  /** The arena after a new node is added under t: `cur` is t's last child so far, -1 for none. */
  function WithChild(ns: seq<Node>, t: int, cur: int, n: Node): (r: seq<Node>)
    requires 0 <= t < |ns| && cur < |ns|
    ensures |r| == |ns| + 1
  {
    var u := |ns|;
    var linked := if cur < 0 then ns[t := ns[t].(firstChild := u)] else ns[cur := ns[cur].(nextSibling := u)];
    linked + [n.(inUse := true, parent := t, firstChild := -1, nextSibling := -1)]
  }

  /** What a node keeps when a later node is linked. */
  lemma {:induction false} ChildAt(ns: seq<Node>, t: int, cur: int, n: Node, i: int)
    requires 0 <= t < |ns| && cur < |ns| && 0 <= i <= |ns|
    ensures
      var r := WithChild(ns, t, cur, n);
      if i == |ns| then r[i].inUse && r[i].parent == t && r[i].firstChild == -1 && r[i].nextSibling == -1
      else
        && r[i].inUse == ns[i].inUse && r[i].parent == ns[i].parent
        && r[i].firstChild == (if cur < 0 && i == t then |ns| else ns[i].firstChild)
        && r[i].nextSibling == (if cur >= 0 && i == cur then |ns| else ns[i].nextSibling)
  {
  }

  lemma {:induction false} SpineEnds(ns: seq<Node>, ends: seq<int>, stack: seq<int>, i: int)
    requires Laid(ns, ends) && Opened(ns, ends, stack) && OnSpine(stack, i)
    ensures 0 <= i < |ns| && ends[i] == |ns|
    ensures i > 0 ==> OnSpine(stack, ns[i].parent)
  {
    assert NodeOk(ns, ends, 0);
    if i > 0 {
      var k :| 0 <= k < |stack| && stack[k] == i;
      if k > 0 {
        assert stack[k - 1] in stack;
      }
    }
  }

  /** A closed node that reaches the end of the arena lies below the top element. */
  lemma {:induction false} ClosedBelowTop(ns: seq<Node>, ends: seq<int>, stack: seq<int>, k: nat, i: int)
    requires Laid(ns, ends) && Opened(ns, ends, stack) && k < |stack|
    requires 0 < i < |ns| && ns[i].parent == (if k == 0 then 0 else stack[k - 1]) && ends[i] == |ns|
    ensures i == stack[k]
  {
    var s := stack[k];
    assert NodeOk(ns, ends, i) && NodeOk(ns, ends, s);
    assert ns[s].parent == ns[i].parent;
  }

  lemma {:induction false} StackRises(ns: seq<Node>, ends: seq<int>, stack: seq<int>, j: nat, k: nat)
    requires Laid(ns, ends) && Opened(ns, ends, stack) && j < k < |stack|
    ensures stack[j] < stack[k]
  {
    assert NodeOk(ns, ends, stack[k]);
    if j < k - 1 {
      StackRises(ns, ends, stack, j, k - 1);
    }
  }

  /** cur is what the walk over t's children ends at. */
  ghost predicate WalkEnd(ns: seq<Node>, t: int, cur: int) {
    0 <= t < |ns| && if ns[t].firstChild < 0 then cur < 0 else LastChild(ns, t, cur)
  }

  lemma {:induction false} Siblings(ns: seq<Node>, ends: seq<int>, a: int, b: int)
    requires Laid(ns, ends) && 0 < a < |ns| && 0 < b < |ns| && ns[a].parent == ns[b].parent && ends[a] == ends[b]
    ensures a == b
  {
    assert NodeOk(ns, ends, a) && NodeOk(ns, ends, b);
  }

  lemma {:induction false} AppendNew(ns: seq<Node>, ends: seq<int>, stack: seq<int>, cur: int, n: Node)
    requires Laid(ns, ends) && Opened(ns, ends, stack) && WalkEnd(ns, stack[|stack| - 1], cur)
    ensures NodeOk(WithChild(ns, stack[|stack| - 1], cur, n), GrownEnds(ends, stack), |ns|)
  {
    var t := stack[|stack| - 1];
    ChildAt(ns, t, cur, n, |ns|);
    assert OnSpine(stack, t);
  }

  lemma {:induction false} AppendSpine(ns: seq<Node>, ends: seq<int>, stack: seq<int>, cur: int, n: Node, i: int)
    requires Laid(ns, ends) && Opened(ns, ends, stack) && WalkEnd(ns, stack[|stack| - 1], cur)
    requires 0 <= i < |ns| && OnSpine(stack, i)
    ensures NodeOk(WithChild(ns, stack[|stack| - 1], cur, n), GrownEnds(ends, stack), i)
  {
    var t := stack[|stack| - 1];
    var r, e := WithChild(ns, t, cur, n), GrownEnds(ends, stack);
    SpineEnds(ns, ends, stack, i);
    assert NodeOk(ns, ends, i);
    SpineBelow(ns, ends, stack, i);
    forall j | 0 <= j <= |ns|
      ensures j < |ns| ==> r[j].inUse == ns[j].inUse && r[j].parent == ns[j].parent
      ensures j < |ns| ==> r[j].firstChild == (if cur < 0 && j == t then |ns| else ns[j].firstChild)
      ensures j < |ns| ==> r[j].nextSibling == (if cur >= 0 && j == cur then |ns| else ns[j].nextSibling)
      ensures j == |ns| ==> r[j].parent == t
    {
      ChildAt(ns, t, cur, n, j);
    }
    CurOff(ns, ends, stack, cur, i);
    hide Laid, Opened, WithChild;
  }

  /** An open element is at most the top one, and if it has no child it is the top one. */
  lemma {:induction false} SpineBelow(ns: seq<Node>, ends: seq<int>, stack: seq<int>, i: int)
    requires Laid(ns, ends) && Opened(ns, ends, stack) && OnSpine(stack, i)
    ensures i <= stack[|stack| - 1]
    ensures i + 1 == |ns| ==> i == stack[|stack| - 1]
  {
    if i > 0 {
      var k :| 0 <= k < |stack| && stack[k] == i;
      if k < |stack| - 1 {
        StackRises(ns, ends, stack, k, |stack| - 1);
      }
    }
  }

  /** The walk never ends at an open element. */
  lemma {:induction false} CurOff(ns: seq<Node>, ends: seq<int>, stack: seq<int>, cur: int, i: int)
    requires Laid(ns, ends) && Opened(ns, ends, stack) && WalkEnd(ns, stack[|stack| - 1], cur) && OnSpine(stack, i)
    ensures cur >= 0 ==> cur != i
  {
    SpineBelow(ns, ends, stack, i);
  }

  lemma {:induction false} AppendOther(ns: seq<Node>, ends: seq<int>, stack: seq<int>, cur: int, n: Node, i: int)
    requires Laid(ns, ends) && Opened(ns, ends, stack) && WalkEnd(ns, stack[|stack| - 1], cur)
    requires 0 <= i < |ns| && !OnSpine(stack, i)
    ensures NodeOk(WithChild(ns, stack[|stack| - 1], cur, n), GrownEnds(ends, stack), i)
  {
    var t := stack[|stack| - 1];
    var r, e := WithChild(ns, t, cur, n), GrownEnds(ends, stack);
    assert NodeOk(ns, ends, i);
    forall j | 0 <= j <= |ns|
      ensures j < |ns| ==> r[j].inUse == ns[j].inUse && r[j].parent == ns[j].parent
      ensures j < |ns| ==> r[j].firstChild == (if cur < 0 && j == t then |ns| else ns[j].firstChild)
      ensures j < |ns| ==> r[j].nextSibling == (if cur >= 0 && j == cur then |ns| else ns[j].nextSibling)
      ensures j == |ns| ==> r[j].parent == t
    {
      ChildAt(ns, t, cur, n, j);
    }
    assert OnSpine(stack, t);
    var p := ns[i].parent;
    if OnSpine(stack, p) {
      SpineEnds(ns, ends, stack, p);
      if ends[i] == |ns| {
        LastClosed(ns, ends, stack, cur, i);
      }
    }
    hide Laid, Opened, WithChild;
  }

  /** A closed child of an open element that reaches the end of the arena is where the walk ends. */
  lemma {:induction false} LastClosed(ns: seq<Node>, ends: seq<int>, stack: seq<int>, cur: int, i: int)
    requires Laid(ns, ends) && Opened(ns, ends, stack) && WalkEnd(ns, stack[|stack| - 1], cur)
    requires 0 < i < |ns| && !OnSpine(stack, i) && OnSpine(stack, ns[i].parent) && ends[i] == |ns|
    ensures ns[i].parent == stack[|stack| - 1] && cur == i
  {
    var p, t := ns[i].parent, stack[|stack| - 1];
    if p == 0 {
      ClosedBelowTop(ns, ends, stack, 0, i);
    } else {
      var k :| 0 <= k < |stack| && stack[k] == p;
      if k < |stack| - 1 {
        ClosedBelowTop(ns, ends, stack, k + 1, i);
      }
    }
    assert NodeOk(ns, ends, i) && NodeOk(ns, ends, t);
    assert NodeOk(ns, ends, cur);
    Siblings(ns, ends, cur, i);
  }

  /** A node added under the top element keeps the arena laid out in document order. */
  lemma {:induction false} AppendLaid(ns: seq<Node>, ends: seq<int>, stack: seq<int>, cur: int, n: Node)
    requires Laid(ns, ends) && Opened(ns, ends, stack) && WalkEnd(ns, stack[|stack| - 1], cur)
    ensures
      var r, e := WithChild(ns, stack[|stack| - 1], cur, n), GrownEnds(ends, stack);
      Laid(r, e) && Opened(r, e, stack)
  {
    var t := stack[|stack| - 1];
    var r, e := WithChild(ns, t, cur, n), GrownEnds(ends, stack);
    forall i | 0 <= i < |r|
      ensures NodeOk(r, e, i)
    {
      hide Laid, Opened, NodeOk, WithChild, GrownEnds, WalkEnd;
      if i == |ns| {
        AppendNew(ns, ends, stack, cur, n);
      } else if OnSpine(stack, i) {
        AppendSpine(ns, ends, stack, cur, n, i);
      } else {
        AppendOther(ns, ends, stack, cur, n, i);
      }
    }
    OpenedKept(ns, ends, stack, cur, n);
    hide NodeOk, Opened, WithChild, GrownEnds;
  }

  lemma {:induction false} OpenedKept(ns: seq<Node>, ends: seq<int>, stack: seq<int>, cur: int, n: Node)
    requires Opened(ns, ends, stack) && WalkEnd(ns, stack[|stack| - 1], cur)
    ensures Opened(WithChild(ns, stack[|stack| - 1], cur, n), GrownEnds(ends, stack), stack)
  {
    var t := stack[|stack| - 1];
    var r := WithChild(ns, t, cur, n);
    forall i | 0 <= i < |ns|
      ensures r[i].parent == ns[i].parent
    {
      ChildAt(ns, t, cur, n, i);
    }
    forall k | 0 <= k < |stack|
      ensures OnSpine(stack, stack[k])
    {
    }
    hide WithChild;
  }

  /** The new node, when its element stays open, goes on the stack. */
  lemma {:induction false} PushOpened(ns: seq<Node>, ends: seq<int>, stack: seq<int>)
    requires Opened(ns, ends, stack) && |stack| < STACK_MAX && ends[|ns| - 1] == |ns|
    requires ns[|ns| - 1].parent == stack[|stack| - 1] && |ns| > 1
    ensures Opened(ns, ends, stack + [|ns| - 1])
  {
  }

  /** A closing tag drops elements above a match, never the body. */
  lemma {:induction false} PopOpened(ns: seq<Node>, ends: seq<int>, stack: seq<int>, k: nat)
    requires Opened(ns, ends, stack) && 1 <= k <= |stack|
    ensures Opened(ns, ends, stack[..k])
  {
  }

  /** The buffer holds the text of the marks; `ws` tells that a further blank adds nothing. */
  ghost predicate Collecting(text: seq<Byte>, ws: bool, marks: seq<Mark>) {
    text == TextOf(marks) && (ws <==> marks == [] || marks[|marks| - 1].Gap?)
  }

  /** What the nodes hold, and what each hangs under. */
  function PiecesOf(ns: seq<Node>): (p: seq<Piece>)
    ensures |p| == |ns|
  {
    seq(|ns|, i requires 0 <= i < |ns| => Piece(ns[i].kind, ns[i].tag, ns[i].text, ns[i].parent))
  }

  lemma {:induction false} PiecesPlus(ns: seq<Node>, t: int, cur: int, n: Node)
    requires 0 <= t < |ns| && cur < |ns|
    ensures PiecesOf(WithChild(ns, t, cur, n)) == PiecesOf(ns) + [Piece(n.kind, n.tag, n.text, t)]
  {
  }

  /** What the builder makes of the tag at offset i0: the page goes on behind it, or ends there because the
      tag does not end or no node is left. */
  predicate TagDone(html: seq<Byte>, i0: nat, st: State, more: bool, i: nat, after: State)
    requires i0 < |html| && Sound(st)
  {
    if more then !TagAt(html, i0).Unended? && i == TagAt(html, i0).end + 1 && after == Tagged(html, i0, st)
    else after.built == st.built && (TagAt(html, i0).Unended? || |st.built| == NODE_MAX)
  }

  /** The nodes that fit the arena. */
  function Fitting(built: seq<Piece>): (p: seq<Piece>) { if |built| <= NODE_MAX then built else built[..NODE_MAX] }

  // ---- The builder ----------------------------------------------------------------------------------

  class Doc {
    const nodes: array<Node>
    var used: nat
    var root: int
    ghost var ends: seq<int>

    constructor ()
      ensures Shape() && used == 0 && root == -1 && fresh(nodes)
    {
      nodes := new Node[NODE_MAX](_ => Fresh.(inUse := false));
      used, root, ends := 0, -1, [];
    }

    ghost predicate Shape()
      reads this`used
    {
      nodes.Length == NODE_MAX && used <= NODE_MAX
    }

    /** The arena so far. */
    ghost function Arena(): (ns: seq<Node>)
      reads this`used, nodes
      requires Shape()
      ensures |ns| == used
    {
      nodes[..used]
    }

    /** Laid out in document order, with this stack of open elements. */
    ghost predicate Building(stack: seq<int>)
      reads this`used, this`ends, nodes
    {
      Shape() && Laid(Arena(), ends) && Opened(Arena(), ends, stack)
    }

    /** The stack cut back to the innermost element of this name above the body; whole when there is none. */
    ghost predicate Popped(stack0: seq<int>, stack: seq<int>, tag: seq<Byte>)
      reads nodes
    {
      && 1 <= |stack| && stack <= stack0 && (forall k :: 0 <= k < |stack0| ==> 0 <= stack0[k] < nodes.Length)
      && (|stack| == |stack0| ==> forall k :: 1 <= k < |stack0| ==> !SameTag(nodes[stack0[k]].tag, tag))
      && (|stack| < |stack0| ==>
            && SameTag(nodes[stack0[|stack|]].tag, tag)
            && forall k :: |stack| < k < |stack0| ==> !SameTag(nodes[stack0[k]].tag, tag))
    }

    /** dom_alloc: the next arena node, or -1. */
    method Alloc() returns (idx: int)
      requires Shape()
      modifies this`used, nodes
      ensures Shape()
      ensures idx < 0 <==> old(used) == NODE_MAX
      ensures idx < 0 ==> used == old(used) && nodes[..] == old(nodes[..])
      ensures idx >= 0 ==> idx == old(used) && used == old(used) + 1 && Arena() == old(Arena()) + [Fresh]
    {
      if used >= NODE_MAX {
        return -1;
      }
      idx := used;
      used := used + 1;
      nodes[idx] := Fresh;
    }

    /** append_child: link the newest node behind the last child of an open element. */
    method AppendChild(parent: int, child: int, ghost ns: seq<Node>, ghost es: seq<int>) returns (ghost cur: int)
      requires Shape() && child == used - 1 && |ns| == child && 0 <= parent < child
      requires Arena()[..child] == ns && Laid(ns, es)
      requires nodes[child].inUse && nodes[child].firstChild == -1 && nodes[child].nextSibling == -1
      modifies nodes
      ensures WalkEnd(ns, parent, cur) && cur < child
      ensures Shape() && Arena() == WithChild(ns, parent, cur, old(nodes[child]))
    {
      nodes[child] := nodes[child].(parent := parent);
      cur := -1;
      if nodes[parent].firstChild < 0 {
        nodes[parent] := nodes[parent].(firstChild := child);
        assert Arena() == WithChild(ns, parent, cur, old(nodes[child]));
        return;
      }
      var c := nodes[parent].firstChild;
      FirstIsChild(ns, es, parent);
      while nodes[c].nextSibling >= 0
        invariant parent < c < child && ns[c].parent == parent
        invariant nodes[..] == old(nodes[..])[child := old(nodes[child]).(parent := parent)]
        decreases child - c
      {
        assert nodes[c] == ns[c];
        NextIsChild(ns, es, c);
        c := nodes[c].nextSibling;
      }
      assert nodes[c] == ns[c];
      cur := c;
      nodes[c] := nodes[c].(nextSibling := child);
      assert Arena() == WithChild(ns, parent, cur, old(nodes[child]));
    }

    /** A new node under the top open element; -1 when the arena is full. */
    method AddNode(parent: int, kind: Kind, tag: seq<Byte>, text: seq<Byte>, ghost stack: seq<int>) returns (idx: int)
      requires Building(stack) && stack != [] && parent == stack[|stack| - 1]
      modifies this`used, this`ends, nodes
      ensures Building(stack)
      ensures idx < 0 <==> old(used) == NODE_MAX
      ensures idx < 0 ==> used == old(used)
      ensures idx >= 0 ==> idx == old(used) && used == old(used) + 1
      ensures idx >= 0 ==>
        && ends[idx] == used && nodes[idx].parent == parent && nodes[idx].tag == tag
        && nodes[idx].kind == kind && nodes[idx].text == text
      ensures PiecesOf(Arena()) == old(PiecesOf(Arena())) + if idx < 0 then [] else [Piece(kind, tag, text, parent)]
    {
      hide Laid, Opened, WithChild, WalkEnd, GrownEnds, PiecesOf;
      ghost var ns, es := Arena(), ends;
      idx := Alloc();
      if idx < 0 {
        assert Arena() == ns && PiecesOf(ns) + [] == PiecesOf(ns);
        return;
      }
      nodes[idx] := nodes[idx].(kind := kind, tag := tag, text := text);
      assert Arena()[..idx] == ns;
      ghost var n := nodes[idx];
      TopInside(ns, es, stack);
      ghost var cur := AppendChild(parent, idx, ns, es);
      AppendLaid(ns, es, stack, cur, n);
      PiecesPlus(ns, parent, cur, n);
      ends := GrownEnds(es, stack);
      ChildFields(ns, parent, cur, n);
      NewestEnd(es, stack);
      assert nodes[idx] == Arena()[idx];
    }

    /** dom_parse_html: build the tree of a page; the result is the number of nodes. The nodes are those the
        page gives, as many as the arena holds. */
    method ParseHtml(html: seq<Byte>) returns (r: int)
      requires Shape() && used == 0
      modifies this`used, this`root, this`ends, nodes
      ensures Shape() && r == used && 2 <= used <= NODE_MAX && root == 0
      ensures Laid(Arena(), ends)
      ensures Forward(Arena()) && Visit(Arena(), root) == Range(0, used)
      ensures PiecesOf(Arena()) == Fitting(Page(html, BodyOffset(html), [], START))
    {
      hide Laid, Opened, Forward, Visit, BodyOffset, Page, Flushed, Tagged, PiecesOf, Sound, TagAt, MarkAt, Fitting;
      Begin();
      var stack := [1];
      var i := BodyOffset(html);
      var text: seq<Byte> := [];
      var ws, inScript, inStyle := true, false, false;
      ghost var marks: seq<Mark> := [];
      StartSound();
      ghost var page := Page(html, i, [], START);
      ghost var going := true;
      StackSound(Arena(), ends, stack, inScript, inStyle);
      while i < |html|
        invariant 0 <= i <= |html| && Building(stack) && root == 0 && used >= 2
        invariant Sound(State(stack, inScript, inStyle, PiecesOf(Arena())))
        invariant going && Collecting(text, ws, marks)
        invariant page == Page(html, i, marks, State(stack, inScript, inStyle, PiecesOf(Arena())))
        decreases |html| - i
      {
        ghost var st := State(stack, inScript, inStyle, PiecesOf(Arena()));
        if html[i] == 0x3C {
          PageTag(html, i, marks, st);
          var more;
          more, i, stack, text, inScript, inStyle := Markup(html, i, stack, text, inScript, inStyle, page);
          ws, marks, going := true, [], more;
          if !more {
            break;
          }
          continue;
        }
        PageMark(html, i, marks, st);
        ghost var mark := MarkAt(html, i).0;
        text, ws, i := Letter(html, i, text, ws, marks);
        marks := marks + [mark];
      }
      if going {
        PageEnd(html, marks, State(stack, inScript, inStyle, PiecesOf(Arena())));
      }
      Trailing(stack, text, inScript, inStyle, going, page);
      LaidForward(Arena(), ends);
      VisitRange(Arena(), ends, 0);
      RootEnd(Arena(), ends);
      return used;
    }

    /** A character, an entity or blank space joins the text. */
    method Letter(html: seq<Byte>, i0: nat, text0: seq<Byte>, ws0: bool, ghost marks: seq<Mark>)
      returns (text: seq<Byte>, ws: bool, i: nat)
      requires i0 < |html| && html[i0] != 0x3C && Collecting(text0, ws0, marks)
      ensures MarkAt(html, i0).1 == i && i0 < i <= |html| && Collecting(text, ws, marks + [MarkAt(html, i0).0])
    {
      hide TextOf, EntityNo;
      text, ws, i := text0, ws0, i0;
      TextPlus(marks, MarkAt(html, i).0);
      if html[i] == 0x26 {
        var c, l := Entity(html, i);
        text, i, ws := Put(text, c), i + l, false;
      } else if html[i] in [0x20, 0x09, 0x0D, 0x0A] {
        if !ws {
          text := Put(text, 0x20);
        }
        ws, i := true, i + 1;
      } else {
        text, ws, i := Put(text, html[i]), false, i + 1;
      }
    }

    /** At an opening bracket: the text so far becomes a node, then the tag is dealt with. */
    method Markup(html: seq<Byte>, i0: nat, stack0: seq<int>, text0: seq<Byte>, inScript0: bool, inStyle0: bool,
        ghost page: seq<Piece>)
      returns (more: bool, i: nat, stack: seq<int>, text: seq<Byte>, inScript: bool, inStyle: bool)
      requires i0 < |html| && Building(stack0) && used >= 2 && |text0| < TEXT_MAX
      requires Sound(State(stack0, inScript0, inStyle0, PiecesOf(Arena())))
      requires
        var s := Flushed(State(stack0, inScript0, inStyle0, PiecesOf(Arena())), text0, false);
        page == if TagAt(html, i0).Unended? then s.built
          else Page(html, TagAt(html, i0).end + 1, [], Tagged(html, i0, s))
      modifies this`used, this`ends, nodes
      ensures Building(stack) && used >= 2 && i0 <= i <= |html| && |text| < TEXT_MAX
      ensures Sound(State(stack, inScript, inStyle, PiecesOf(Arena())))
      ensures more ==> i > i0 && text == []
      ensures more ==> page == Page(html, i, [], State(stack, inScript, inStyle, PiecesOf(Arena())))
      ensures !more ==> PiecesOf(Arena()) == Fitting(page) && (text == [] || used == NODE_MAX)
    {
      hide Laid, Opened, PiecesOf, Page, Tagged, TagAt;
      more, i, stack, text, inScript, inStyle := true, i0, stack0, text0, inScript0, inStyle0;
      StackTop(Arena(), ends, stack);
      if |text| > 0 && !inScript && !inStyle {
        var tn := AddNode(stack[|stack| - 1], Text, [], text, stack);
        if tn < 0 {
          more := false;
          return;
        }
      }
      text := [];
      more, i, stack, inScript, inStyle := Tag(html, i, stack, inScript, inStyle);
      StackSound(Arena(), ends, stack, inScript, inStyle);
    }

    /** Text at the end of the page. */
    method Trailing(stack: seq<int>, text: seq<Byte>, ghost inScript: bool, ghost inStyle: bool, ghost going: bool,
        ghost page: seq<Piece>)
      requires Building(stack) && used >= 2 && Sound(State(stack, inScript, inStyle, PiecesOf(Arena())))
      requires
        if going then page == Flushed(State(stack, inScript, inStyle, PiecesOf(Arena())), text, true).built
        else PiecesOf(Arena()) == Fitting(page) && (text == [] || used == NODE_MAX)
      modifies this`used, this`ends, nodes
      ensures Building(stack) && used >= 2 && PiecesOf(Arena()) == Fitting(page)
    {
      hide Laid, Opened, PiecesOf;
      StackTop(Arena(), ends, stack);
      if |text| > 0 {
        var tn := AddNode(stack[|stack| - 1], Text, [], text, stack);
      }
    }

    /** One tag, from its opening bracket on. more == false ends the page. */
    method Tag(html: seq<Byte>, i0: nat, stack0: seq<int>, inScript0: bool, inStyle0: bool)
      returns (more: bool, i: nat, stack: seq<int>, inScript: bool, inStyle: bool)
      requires i0 < |html| && Building(stack0) && used >= 2
      modifies this`used, this`ends, nodes
      ensures Building(stack) && used >= 2 && i0 <= i <= |html| && (more ==> i > i0)
      ensures
        var st := State(stack0, inScript0, inStyle0, old(PiecesOf(Arena())));
        Sound(st) && TagDone(html, i0, st, more, i, State(stack, inScript, inStyle, PiecesOf(Arena())))
      ensures stack0 != [] && used == old(used) + if Adds(html, i0, inScript0, inStyle0) && old(used) < NODE_MAX then 1
        else 0
      ensures
        match TagAt(html, i0)
        case Unended => !more && i == i0 && stack == stack0 && inScript == inScript0 && inStyle == inStyle0
        case Blank(end) => more && i == end + 1 && stack == stack0 && inScript == inScript0 && inStyle == inStyle0
        case Named(end, closing, name, slashed) =>
          if inScript0 || inStyle0 then
            && more && i == end + 1 && stack == stack0
            && inScript == (inScript0 && !(closing && SameTag(name, Chars("script"))))
            && inStyle == (inStyle0 && (inScript0 || !(closing && SameTag(name, Chars("style")))))
          else if closing then
            more && i == end + 1 && !inScript && !inStyle && Popped(stack0, stack, name)
          else if !Adds(html, i0, inScript0, inStyle0) then
            && more && i == end + 1 && stack == stack0
            && inScript == SameTag(name, Chars("script")) && inStyle == !inScript
          else if used == old(used) then
            !more && stack == stack0 && !inScript && !inStyle
          else
            && more && i == end + 1 && !inScript && !inStyle && old(used) < nodes.Length
            && nodes[old(used)].kind == Element && nodes[old(used)].tag == name
            && nodes[old(used)].parent == stack0[|stack0| - 1]
            && stack == if Opens(name, slashed, stack0) then stack0 + [old(used)] else stack0
    {
      hide Laid, Opened, CString, TagName, IsVoid, Chars, SameTag;
      more, i, stack, inScript, inStyle := true, i0, stack0, inScript0, inStyle0;
      StackTop(Arena(), ends, stack);
      StackSound(Arena(), ends, stack, inScript, inStyle);
      var end := i + 1;
      while end < |html| && html[end] != 0x3E
        invariant i < end <= |html| && TagEnd(html, i + 1) == TagEnd(html, end)
      {
        end := end + 1;
      }
      if end >= |html| {
        return false, i, stack, inScript, inStyle;
      }
      var closing := html[i + 1] == 0x2F;
      var p := if closing then i + 2 else i + 1;
      i := end + 1;
      if end == p || html[p] == 0x21 {
        return;
      }
      var tag := CString(TagName(html[p..end], TAG_MAX - 1));
      if inScript {
        inScript := !(closing && SameTag(tag, Chars("script")));
        return;
      }
      if inStyle {
        inStyle := !(closing && SameTag(tag, Chars("style")));
        return;
      }
      if closing {
        stack := Close(stack, tag);
        return;
      }
      if SameTag(tag, Chars("script")) {
        inScript := true;
        return;
      }
      if SameTag(tag, Chars("style")) {
        inStyle := true;
        return;
      }
      var node := AddNode(stack[|stack| - 1], Element, tag, [], stack);
      if node < 0 {
        return false, i0, stack, inScript, inStyle;
      }
      if !IsVoid(tag) && |stack| < STACK_MAX && html[end - 1] != 0x2F {
        PushOpened(Arena(), ends, stack);
        stack := stack + [node];
      }
    }

    /** A closing tag: pop to the innermost matching open element; the body stays. */
    method Close(stack0: seq<int>, tag: seq<Byte>) returns (stack: seq<int>)
      requires Building(stack0)
      ensures Building(stack) && Popped(stack0, stack, tag)
      ensures
        var st := State(stack0, false, false, PiecesOf(Arena()));
        Sound(st) && stack == stack0[..CutBack(st, tag, |stack0|)]
    {
      hide Laid, SameTag;
      ghost var st := State(stack0, false, false, PiecesOf(Arena()));
      stack := stack0;
      var s := |stack0| - 1;
      while s > 0
        invariant 0 <= s < |stack0| && forall k :: 0 <= k < |stack0| ==> 0 <= stack0[k] < nodes.Length
        invariant forall k :: s < k < |stack0| ==> !SameTag(nodes[stack0[k]].tag, tag)
        invariant CutBack(st, tag, s + 1) == CutBack(st, tag, |stack0|)
      {
        assert st.built[stack0[s]].tag == nodes[stack0[s]].tag;
        if SameTag(nodes[stack0[s]].tag, tag) {
          PopOpened(Arena(), ends, stack0, s);
          return stack0[..s];
        }
        s := s - 1;
      }
    }

    /** A named entity, or the ampersand itself. */
    method Entity(html: seq<Byte>, i: nat) returns (c: Byte, l: nat)
      requires i < |html| && html[i] == 0x26
      ensures 1 <= l <= |html| - i
      ensures
        || (exists e <- Entities :: EntityAt(html, i, e.0) && c == e.1 as int % 256 && l == |e.0|)
        || (c == html[i] && l == 1 && forall e <- Entities :: !EntityAt(html, i, e.0))
      ensures MarkAt(html, i) == (Char(c), i + l)
    {
      hide Chars, MarkAt, EntityAt;
      var k := 0;
      while k < |Entities|
        invariant k <= |Entities| && forall j :: 0 <= j < k ==> !EntityAt(html, i, Entities[j].0)
        invariant EntityNo(html, i, k) == EntityNo(html, i, 0)
      {
        var e := Chars(Entities[k].0);
        IsEntityAt(html, i, Entities[k].0);
        if i + |e| <= |html| && html[i..i + |e|] == e {
          assert Entities[k] in Entities;
          SpelledMark(html, i, k);
          return Entities[k].1 as int % 256, |e|;
        }
        k := k + 1;
      }
      SpelledMark(html, i, k);
      return html[i], 1;
    }

    /** The root and body every page starts with. */
    method Begin()
      requires Shape() && used == 0
      modifies this`used, this`root, this`ends, nodes
      ensures Building([1]) && used == 2 && root == 0 && PiecesOf(Arena()) == START.built
    {
      var r := Alloc();
      nodes[r] := nodes[r].(kind := Element, tag := Chars("html"));
      root := r;
      var b := Alloc();
      nodes[b] := nodes[b].(kind := Element, tag := Chars("body"));
      ghost var ns := Arena()[..1];
      LaidRoot(ns);
      ghost var cur := AppendChild(r, b, ns, [1]);
      ends := [2, 2];
      LaidTwo(Arena(), ends);
    }
  }

  lemma {:induction false} StackTop(ns: seq<Node>, ends: seq<int>, stack: seq<int>)
    requires Opened(ns, ends, stack)
    ensures stack != []
  {
  }

  lemma {:induction false} StackSound(ns: seq<Node>, ends: seq<int>, stack: seq<int>, script: bool, style: bool)
    requires Opened(ns, ends, stack)
    ensures Sound(State(stack, script, style, PiecesOf(ns)))
  {
  }

  lemma {:induction false} RootEnd(ns: seq<Node>, ends: seq<int>)
    requires Laid(ns, ends) && |ns| >= 1
    ensures |ends| == |ns| && ends[0] == |ns|
  {
    assert NodeOk(ns, ends, 0);
  }

  lemma {:induction false} TopInside(ns: seq<Node>, ends: seq<int>, stack: seq<int>)
    requires Opened(ns, ends, stack)
    ensures 0 <= stack[|stack| - 1] < |ns| == |ends|
  {
  }

  lemma {:induction false} ChildFields(ns: seq<Node>, t: int, cur: int, n: Node)
    requires 0 <= t < |ns| && cur < |ns|
    ensures WithChild(ns, t, cur, n)[|ns|].parent == t
    ensures
      var c := WithChild(ns, t, cur, n)[|ns|];
      c.tag == n.tag && c.kind == n.kind && c.text == n.text
  {
  }

  lemma {:induction false} NewestEnd(ends: seq<int>, stack: seq<int>)
    ensures GrownEnds(ends, stack)[|ends|] == |ends| + 1
  {
  }

  lemma {:induction false} LaidRoot(ns: seq<Node>)
    requires |ns| == 1 && ns[0].inUse && ns[0].parent == -1 && ns[0].firstChild == -1 && ns[0].nextSibling == -1
    ensures Laid(ns, [1])
  {
  }

  lemma {:induction false} LaidTwo(ns: seq<Node>, ends: seq<int>)
    requires |ns| == 2 && ends == [2, 2] && ns[0].inUse && ns[1].inUse
    requires ns[0].parent == -1 && ns[0].firstChild == 1 && ns[0].nextSibling == -1
    requires ns[1].parent == 0 && ns[1].firstChild == -1 && ns[1].nextSibling == -1
    ensures Laid(ns, ends) && Opened(ns, ends, [1])
  {
    assert NodeOk(ns, ends, 0) && NodeOk(ns, ends, 1);
  }

  lemma {:induction false} FirstIsChild(ns: seq<Node>, ends: seq<int>, p: int)
    requires Laid(ns, ends) && 0 <= p < |ns| && ns[p].firstChild >= 0
    ensures p < ns[p].firstChild < |ns| && ns[ns[p].firstChild].parent == p
  {
    assert NodeOk(ns, ends, p);
  }

  lemma {:induction false} NextIsChild(ns: seq<Node>, ends: seq<int>, c: int)
    requires Laid(ns, ends) && 0 < c < |ns| && ns[c].nextSibling >= 0
    ensures c < ns[c].nextSibling < |ns| && ns[ns[c].nextSibling].parent == ns[c].parent
  {
    assert NodeOk(ns, ends, c);
  }
}
