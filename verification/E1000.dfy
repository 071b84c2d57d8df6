/** The E1000 receive ring: the polling driver and the NIC, which may act between any two of the
    driver's steps. */
module E1000 {
  import opened Arith
  import opened Bytes
  import opened Circular

  const RX_DESCS: nat := 64
  const RX_BUF_SIZE: nat := 2048
  const RESET_MS: nat := 1000

  /** The fields of a receive descriptor that change: descriptor-done status and length. */
  datatype Desc = Desc(done: bool, length: nat)

  type Frame = seq<Byte>

  /** Exactly the n descriptors from place `at` on are done; each tells its frame's length. */
  predicate RingOk(descs: seq<Desc>, bufs: seq<Frame>, at: nat, n: nat) {
    && |descs| == |bufs| == RX_DESCS
    && forall j :: 0 <= j < RX_DESCS ==>
         var i := Place(at, j, RX_DESCS);
         (descs[i].done <==> j < n) && (j < n ==> descs[i].length == |bufs[i]| && 0 < |bufs[i]| < RX_BUF_SIZE)
  }

  /** A frame stored at the head. */
  lemma {:induction false} RingStored(descs: seq<Desc>, bufs: seq<Frame>, at: nat, n: nat, f: Frame)
    requires RingOk(descs, bufs, at, n) && n < RX_DESCS && 0 < |f| < RX_BUF_SIZE
    ensures
      var h := Place(at, n, RX_DESCS);
      && RingOk(descs[h := Desc(true, |f|)], bufs[h := f], at, n + 1)
      && Window(bufs[h := f], at, n + 1) == Window(bufs, at, n) + [f]
      && forall j :: 0 <= j < n ==> Place(at, j, RX_DESCS) != h
  {
    WindowPush(bufs, at, n, f);
    forall j | 0 <= j < RX_DESCS && j != n
      ensures Place(at, j, RX_DESCS) != Place(at, n, RX_DESCS)
    {
      if j < n {
        PlaceDiffers(at, j, n, RX_DESCS);
      } else {
        PlaceDiffers(at, n, j, RX_DESCS);
      }
    }
  }

  /** The first done descriptor cleared. */
  lemma {:induction false} RingCleared(descs: seq<Desc>, bufs: seq<Frame>, at: nat, n: nat, len: nat)
    requires RingOk(descs, bufs, at, n) && 0 < n < RX_DESCS && at < RX_DESCS
    ensures RingOk(descs[at := Desc(false, len)], bufs, Place(at, 1, RX_DESCS), n - 1)
    ensures Window(bufs, at, n) == [bufs[at]] + Window(bufs, Place(at, 1, RX_DESCS), n - 1)
  {
    WindowFirst(bufs, at, n);
    PlaceZero(at, RX_DESCS);
    forall j | 0 <= j < RX_DESCS
      ensures Place(Place(at, 1, RX_DESCS), j, RX_DESCS) == if j == RX_DESCS - 1 then at else Place(at, j + 1, RX_DESCS)
      ensures j < RX_DESCS - 1 ==> Place(at, j + 1, RX_DESCS) != at
    {
      PlaceTwice(at, 1, j, RX_DESCS);
      if j < RX_DESCS - 1 {
        PlaceDiffers(at, 0, j + 1, RX_DESCS);
      }
    }
  }

  /** The frames of s occur in t, in the same order. */
  predicate Within(s: seq<Frame>, t: seq<Frame>) {
    s == [] || (t != [] && ((s[|s| - 1] == t[|t| - 1] && Within(s[..|s| - 1], t[..|t| - 1]))
      || Within(s, t[..|t| - 1])))
  }

  /** The traffic is what has come and what is still to come; the accepted frames are some of those that
      have come, in order. */
  predicate Fed(traffic: seq<Frame>, accepted: seq<Frame>, arrived: seq<Frame>, wire: seq<Frame>) {
    traffic == arrived + wire && Within(accepted, arrived) && forall f <- wire :: 0 < |f| < RX_BUF_SIZE
  }

  lemma {:induction false} FedMore(traffic: seq<Frame>, accepted: seq<Frame>, arrived: seq<Frame>, wire: seq<Frame>)
    requires Fed(traffic, accepted, arrived, wire) && wire != []
    ensures 0 < |wire[0]| < RX_BUF_SIZE
    ensures Fed(traffic, accepted, arrived + [wire[0]], wire[1..])
    ensures Fed(traffic, accepted + [wire[0]], arrived + [wire[0]], wire[1..])
  {
    var f := wire[0];
    assert (arrived + [f])[..|arrived|] == arrived && (accepted + [f])[..|accepted|] == accepted;
    assert arrived + wire == (arrived + [f]) + wire[1..];
  }

  /** What the driver and the NIC share, and the driver's cursor. */
  datatype RingState = RingState(descs: seq<Desc>, cur: nat, rdh: nat, rdt: nat)

  /** No frame waits: head and cursor together, the tail one behind. */
  predicate Idle(r: RingState) {
    && |r.descs| == RX_DESCS && r.cur == r.rdh < RX_DESCS && r.rdt == Place(r.cur, RX_DESCS - 1, RX_DESCS)
    && forall i :: 0 <= i < RX_DESCS ==> !r.descs[i].done
  }

  /** The guard of the ring reset. */
  predicate Resets(r: RingState)
    requires |r.descs| == RX_DESCS && r.cur < RX_DESCS
  {
    !r.descs[r.cur].done && r.rdh == r.rdt && forall i :: 0 <= i < RX_DESCS ==> !r.descs[i].done
  }

  /** The two halves of storing a frame, and what the driver does with the descriptor at its cursor. */
  function Announced(r: RingState, length: nat): RingState
    requires r.rdh < |r.descs|
  {
    r.(descs := r.descs[r.rdh := Desc(true, length)])
  }

  function HeadMoved(r: RingState): RingState { r.(rdh := Place(r.rdh, 1, RX_DESCS)) }

  function Recycled(r: RingState): RingState
    requires r.cur < |r.descs|
  {
    RingState(r.descs[r.cur := r.descs[r.cur].(done := false)], Place(r.cur, 1, RX_DESCS), r.rdh, r.cur)
  }

  class Rx {
    /** Descriptors and buffers, shared with the NIC. */
    const descs: array<Desc>
    const bufs: array<Frame>
    /** The driver's cursor; the NIC's head and the tail the driver publishes. */
    var cur: nat
    var rdh: nat
    var rdt: nat
    var lastResetMs: nat

    /** Frames the network will still bring, and frames given to the stack, if one is attached. */
    var wire: seq<Frame>
    const attached: bool
    var delivered: seq<Frame>
    /** The traffic from start to end, and the part that has come. */
    ghost const traffic: seq<Frame>
    ghost var arrived: seq<Frame>
    /** Frames the NIC has put into the ring, frames the driver has taken out, and the first place it
        has not emptied. */
    ghost var accepted: seq<Frame>
    ghost var taken: seq<Frame>
    ghost var next: nat

    ghost predicate Shape()
      reads this`next, this`rdh
    {
      descs.Length == RX_DESCS && bufs.Length == RX_DESCS && next < RX_DESCS && rdh < RX_DESCS
    }

    ghost function View(): RingState
      reads this`cur, this`rdh, this`rdt, descs
    {
      RingState(descs[..], cur, rdh, rdt)
    }

    /** How many filled descriptors wait for the driver. */
    ghost function Count(): (n: nat)
      reads this`next, this`rdh
      requires Shape()
    {
      Ahead(next, rdh, RX_DESCS)
    }

    /** The waiting frames, in arrival order. */
    ghost function Pending(): seq<Frame>
      reads this`next, this`rdh, bufs
      requires Shape()
    {
      Window(bufs[..], next, Count())
    }

    ghost predicate Ring()
      reads this`next, this`rdh, descs, bufs
      requires Shape()
    {
      RingOk(descs[..], bufs[..], next, Count())
    }

    /** Every frame the NIC accepted was taken once or waits, in order. The tail is `back` places
        short of one behind `next`. */
    ghost predicate Mid(back: nat)
      reads this`next, this`rdh, this`rdt, this`accepted, this`taken, this`wire, this`arrived, descs, bufs
    {
      && Shape() && Ring() && back <= 1 && Count() + back < RX_DESCS
      && rdt == Place(next, RX_DESCS - 1 - back, RX_DESCS)
      && accepted == taken + Pending() && Fed(traffic, accepted, arrived, wire)
    }

    /** Between descriptors: the tail is one behind the cursor, and the stack got what was taken. */
    ghost predicate Valid()
      reads this`cur, this`next, this`rdh, this`rdt, this`accepted, this`taken, this`delivered, this`wire,
        this`arrived, descs, bufs
    {
      Mid(0) && cur == next && (attached ==> delivered == taken)
    }

    /** e1000_init_rx. */
    constructor (traffic: seq<Frame>, attached: bool)
      requires forall f <- traffic :: 0 < |f| < RX_BUF_SIZE
      ensures Valid() && wire == this.traffic == traffic && arrived == accepted == delivered == [] && Idle(View())
    {
      descs := new Desc[RX_DESCS](_ => Desc(false, 0));
      bufs := new Frame[RX_DESCS](_ => []);
      cur, rdh, rdt, lastResetMs := 0, 0, RX_DESCS - 1, 0;
      this.attached := attached;
      this.traffic := traffic;
      wire, arrived, accepted, taken, delivered, next := traffic, [], [], [], [], 0;
    }

    // ---- The NIC -------------------------------------------------------------------------------

    /** Any number of frames arrive; one is stored when the head has not caught up with the tail. */
    method Nic(ghost back: nat)
      requires Mid(back)
      modifies this`wire, this`arrived, this`rdh, this`accepted, descs, bufs
      ensures Mid(back) && Shape() && |wire| <= |old(wire)|
      ensures Count() >= old(Count()) && Count() + |wire| <= old(Count() + |wire|) && old(accepted) <= accepted
      ensures old(Count()) > 0 ==> bufs[next] == old(bufs[next]) && descs[next] == old(descs[next])
    {
      var some := *;
      while some && wire != []
        invariant Mid(back) && |wire| <= |old(wire)|
        invariant Count() >= old(Count()) && Count() + |wire| <= old(Count() + |wire|) && old(accepted) <= accepted
        invariant old(Count()) > 0 ==> bufs[next] == old(bufs[next]) && descs[next] == old(descs[next])
        decreases |wire|
      {
        Store(back);
        some := *;
      }
    }

    /** One frame arrives: stored and announced in one step, or lost for want of a descriptor. */
    method Store(ghost back: nat)
      requires Mid(back) && wire != []
      modifies this`wire, this`arrived, this`rdh, this`accepted, descs, bufs
      ensures Mid(back) && wire == old(wire)[1..]
      ensures Count() == old(Count()) + if old(rdh) == rdt then 0 else 1
      ensures accepted == old(accepted) + if old(rdh) == rdt then [] else [old(wire)[0]]
      ensures arrived == old(arrived) + [old(wire)[0]]
      ensures old(Count()) > 0 ==> bufs[next] == old(bufs[next]) && descs[next] == old(descs[next])
    {
      hide RingOk, Place, Fed;
      FedMore(traffic, accepted, arrived, wire);
      var f := wire[0];
      wire, arrived := wire[1..], arrived + [f];
      if rdh == rdt {
        return;
      }
      ghost var n := Count();
      ghost var b0, d0 := bufs[..], descs[..];
      HeadPlace(next, rdh, rdt, n, back);
      RingStored(d0, b0, next, n, f);
      PlaceZero(next, RX_DESCS);
      PlaceTwice(next, n, 1, RX_DESCS);
      PlaceAhead(next, n + 1, RX_DESCS);
      bufs[rdh] := f;
      descs[rdh] := Desc(true, |f|);
      assert bufs[..] == b0[rdh := f] && descs[..] == d0[rdh := Desc(true, |f|)];
      rdh := Place(rdh, 1, RX_DESCS);
      accepted := accepted + [f];
    }

    // ---- The driver ------------------------------------------------------------------------------

    /** e1000_poll, with the NIC acting between any two steps. What the NIC had accepted before the call
        has been taken, in order, when it ends. The ring reset at the end is never reached: head and tail
        meet only when descriptors are done. */
    method Poll(nowMs: nat)
      requires Valid()
      modifies this`cur, this`rdh, this`rdt, this`wire, this`arrived, this`delivered, this`accepted, this`taken,
        this`next, descs, bufs
      ensures Valid() && old(accepted) <= accepted && old(taken) <= taken
      ensures old(accepted) <= taken && (attached ==> old(accepted) <= delivered)
    {
      hide Mid, Ring, Place, Ahead, Window, Fed;
      InRing(0);
      Nic(0);
      var more := Done();
      while more
        invariant Valid() && Shape() && old(accepted) <= accepted && old(taken) <= taken && (more <==> Count() > 0)
        decreases Count() + |wire|, more
      {
        TakeOne();
        Nic(0);
        more := Done();
      }
      AllTaken();
      SelfHeal(nowMs);
    }

    /** When no frame waits, everything accepted has been taken. */
    ghost method AllTaken()
      requires Valid() && Shape() && Count() == 0
      ensures accepted == taken
    {
      hide Ring, Ahead, Fed, Place;
    }

    /** The ring reset, when the device claims to have no descriptors and none is done. */
    method SelfHeal(nowMs: nat)
      requires Valid() && Shape()
      modifies this`rdh, this`wire, this`arrived, this`accepted, descs, bufs
      ensures Valid() && old(accepted) <= accepted
    {
      hide Mid, Ring, Place, Ahead, Window, Fed;
      Nic(0);
      var more := Done();
      if more {
        return;
      }
      Nic(0);
      TailPlace();
      var h := rdh;
      HeadAtTail(next, rdh, rdt);
      Nic(0);
      if h == rdt {
        var any := AnyDone();
        if !any && nowMs >= lastResetMs + RESET_MS {
          assert false;
        }
      }
    }

    ghost method TailPlace()
      requires Mid(0)
      ensures rdt == Place(next, RX_DESCS - 1, RX_DESCS) && next < RX_DESCS && rdh < RX_DESCS
        && Count() == Ahead(next, rdh, RX_DESCS)
    {
      hide Ring;
    }

    /** Read the status of the descriptor at the cursor. */
    method Done() returns (done: bool)
      requires Valid()
      ensures done <==> Count() > 0
    {
      PlaceZero(cur, RX_DESCS);
      done := descs[cur].done;
    }

    /** Scan all descriptors. */
    method AnyDone() returns (any: bool)
      requires Valid() && Count() > 0
      modifies this`rdh, this`wire, this`arrived, this`accepted, descs, bufs
      ensures Valid() && any && old(accepted) <= accepted
    {
      hide Place, Ahead, Fed, RingOk, Window;
      any := false;
      var i := 0;
      while i < RX_DESCS && !any
        invariant 0 <= i <= RX_DESCS && Valid() && Count() > 0 && old(accepted) <= accepted
        invariant !any ==> i <= cur
      {
        Nic(0);
        CursorDone();
        any := descs[i].done;
        i := i + 1;
      }
    }

    ghost method CursorDone()
      requires Valid() && Count() > 0
      ensures descs[cur].done && descs.Length == RX_DESCS && cur < RX_DESCS
    {
      PlaceZero(cur, RX_DESCS);
    }

    /** Deliver the frame at the cursor and recycle its descriptor. */
    method TakeOne()
      requires Valid() && Count() > 0
      modifies this`cur, this`rdh, this`rdt, this`wire, this`arrived, this`delivered, this`accepted, this`taken,
        this`next, descs, bufs
      ensures Valid() && Shape() && old(accepted) <= accepted && |taken| == |old(taken)| + 1 && old(taken) <= taken
      ensures Count() + |wire| < old(Count() + |wire|)
    {
      hide Mid, Ring, Place, Ahead, Window, Fed;
      InRing(0);
      Deliver();
      Recycle();
    }

    /** Hand the frame at the cursor to the stack. */
    method Deliver()
      requires Mid(0) && Shape() && cur == next && Count() > 0 && (attached ==> delivered == taken)
      modifies this`rdh, this`wire, this`arrived, this`delivered, this`accepted, descs, bufs
      ensures Mid(0) && Shape() && cur == next && Count() > 0 && (attached ==> delivered == taken + [bufs[cur]])
      ensures old(accepted) <= accepted && Count() + |wire| <= old(Count() + |wire|)
    {
      hide Mid, Ring, Place, Ahead, Window, Fed;
      Nic(0);
      var len := ReadLength();
      ghost var f := bufs[cur];
      Nic(0);
      if attached && 0 < len < RX_BUF_SIZE {
        assert f[..len] == f;
        delivered := delivered + [bufs[cur][..len]];
      }
      Nic(0);
    }

    /** Clear the descriptor, move the cursor on, publish the tail. */
    method Recycle()
      requires Mid(0) && Shape() && cur == next && Count() > 0 && (attached ==> delivered == taken + [bufs[cur]])
      modifies this`cur, this`rdh, this`rdt, this`wire, this`arrived, this`accepted, this`taken, this`next, descs, bufs
      ensures Mid(0) && Shape() && cur == next && (attached ==> delivered == taken)
      ensures old(accepted) <= accepted && |taken| == |old(taken)| + 1 && old(taken) <= taken
      ensures Count() + |wire| < old(Count() + |wire|)
    {
      hide Mid, Ring, Place, Ahead, Window, Fed;
      Clear();
      Nic(1);
      var old' := cur;
      cur := (cur + 1) % RX_DESCS;
      Nic(1);
      PublishTail(old');
    }

    ghost method InRing(back: nat)
      requires Mid(back)
      ensures Shape()
    {
    }

    /** Write the tail register. */
    method PublishTail(tail: nat)
      requires Mid(1) && Shape() && tail == Place(next, RX_DESCS - 1, RX_DESCS)
      modifies this`rdt
      ensures Mid(0) && View() == old(View()).(rdt := tail)
    {
      hide Ring, Window, Place, Ahead, Fed;
      rdt := tail;
    }

    method ReadLength() returns (len: nat)
      requires Mid(0) && cur == next && Count() > 0
      ensures len == |bufs[cur]| && 0 < len < RX_BUF_SIZE
    {
      PlaceZero(cur, RX_DESCS);
      len := descs[cur].length;
    }

    /** Give the descriptor back: its status is cleared. */
    method Clear()
      requires Mid(0) && cur == next && Count() > 0
      modifies this`taken, this`next, descs
      ensures Mid(1) && next == (cur + 1) % RX_DESCS && taken == old(taken) + [old(bufs[cur])]
      ensures Count() == old(Count()) - 1 && cur == Place(next, RX_DESCS - 1, RX_DESCS)
      ensures View() == old(View()).(descs := old(View()).descs[cur := old(View()).descs[cur].(done := false)])
    {
      hide RingOk, Fed;
      ghost var n, d0 := Count(), descs[..];
      RingCleared(d0, bufs[..], cur, n, descs[cur].length);
      descs[cur] := descs[cur].(done := false);
      assert descs[..] == d0[cur := Desc(false, d0[cur].length)];
      taken := taken + [bufs[cur]];
      NextCount(cur, rdh, n);
      next := Place(next, 1, RX_DESCS);
    }
  }

  lemma {:induction false} NextCount(at: nat, rdh: nat, n: nat)
    requires at < RX_DESCS && rdh < RX_DESCS && n == Ahead(at, rdh, RX_DESCS) > 0
    ensures Ahead(Place(at, 1, RX_DESCS), rdh, RX_DESCS) == n - 1
    ensures Place(Place(at, 1, RX_DESCS), RX_DESCS - 2, RX_DESCS) == Place(at, RX_DESCS - 1, RX_DESCS)
    ensures Place(Place(at, 1, RX_DESCS), RX_DESCS - 1, RX_DESCS) == at
  {
    NextAhead(at, rdh, n);
    NextPlace(at);
  }

  lemma {:induction false} NextAhead(at: nat, rdh: nat, n: nat)
    requires at < RX_DESCS && rdh < RX_DESCS && n == Ahead(at, rdh, RX_DESCS) > 0
    ensures Ahead(Place(at, 1, RX_DESCS), rdh, RX_DESCS) == n - 1
  {
    if at + 1 == RX_DESCS {
      assert Place(at, 1, RX_DESCS) == 0;
    } else {
      assert Place(at, 1, RX_DESCS) == at + 1;
    }
  }

  lemma {:induction false} NextPlace(at: nat)
    requires at < RX_DESCS
    ensures Place(Place(at, 1, RX_DESCS), RX_DESCS - 2, RX_DESCS) == Place(at, RX_DESCS - 1, RX_DESCS)
    ensures Place(Place(at, 1, RX_DESCS), RX_DESCS - 1, RX_DESCS) == at
  {
    if at + 1 == RX_DESCS {
      assert Place(at, 1, RX_DESCS) == 0;
    } else {
      assert Place(at, 1, RX_DESCS) == at + 1;
    }
  }

  /** When the head is at the tail, the ring is as full as it gets. */
  lemma {:induction false} HeadAtTail(next: nat, rdh: nat, rdt: nat)
    requires next < RX_DESCS && rdh < RX_DESCS && rdt == Place(next, RX_DESCS - 1, RX_DESCS)
    ensures rdh == rdt ==> Ahead(next, rdh, RX_DESCS) == RX_DESCS - 1
  {
  }

  /** Whenever no frame waits the ring is idle. */
  lemma {:induction false} EmptyIdle(rx: Rx)
    requires rx.Valid() && rx.Count() == 0
    ensures Idle(rx.View())
  {
    var next := rx.next;
    AheadPlace(next, rx.rdh, RX_DESCS);
    PlaceZero(next, RX_DESCS);
    forall i | 0 <= i < RX_DESCS
      ensures !rx.descs[i].done
    {
      var j := Ahead(next, i, RX_DESCS);
      AheadPlace(next, i, RX_DESCS);
      assert Place(next, j, RX_DESCS) == i;
      assert rx.descs[..][i] == rx.descs[i];
    }
  }

  /** Why the NIC's step has to be one step. From any idle ring, the initial one included: when a frame is
      announced and the driver takes it before the head has moved, the guard of the reset holds. When the
      head moves first it does not, and the ring ends up idle. */
  lemma {:induction false} LaggingHead(r: RingState, length: nat)
    requires Idle(r)
    ensures
      var a := Announced(r, length);
      && a.descs[a.cur].done
      && Resets(Recycled(a))
      && !Resets(HeadMoved(a)) && Idle(Recycled(HeadMoved(a))) && !Resets(Recycled(HeadMoved(a)))
  {
    NextPlace(r.cur);
  }

  /** The head is Count() places on, and one more fits when it has not reached the tail. */
  lemma {:induction false} HeadPlace(next: nat, rdh: nat, rdt: nat, n: nat, back: nat)
    requires next < RX_DESCS && rdh < RX_DESCS && n == Ahead(next, rdh, RX_DESCS) && back <= 1 && n + back < RX_DESCS
    requires rdt == Place(next, RX_DESCS - 1 - back, RX_DESCS) && rdh != rdt
    ensures rdh == Place(next, n, RX_DESCS) && n + 1 + back < RX_DESCS
  {
    AheadPlace(next, rdh, RX_DESCS);
  }
}
