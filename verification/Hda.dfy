/** The HD Audio pump: a software FIFO feeding the DMA ring, with silence when there is nothing to
    play. The DMA engine reads the ring on its own. */
module Hda {
  import opened Arith
  import opened Circular

  const RING: nat := 16384
  const RING_BYTES: nat := RING * 4
  const FRESH_LEAD: nat := 1024
  const FIFO: nat := 576 * 1024
  const MAX_FRAMES: nat := 0x20_0000
  const U32: nat := 0x1_0000_0000

  type Sample = x: int | -32768 <= x < 32768
  datatype Frame = Frame(l: Sample, r: Sample)

  /** What a ring place holds: silence the driver put there, or a queued frame at some volume. */
  datatype Cell = Sil | Data(frame: Frame, volume: nat)

  const Silence: Frame := Frame(0, 0)

  /** Division that rounds toward zero, as the volume scaling does. */
  function Scale(x: Sample, volume: nat): (y: Sample)
    requires volume <= 100
  {
    var p := x * volume;
    var q := if p >= 0 then p / 100 else -(-p / 100);
    assert -32768 <= q < 32768;
    q
  }

  /** The sound of a place. */
  function Sound(c: Cell): Frame
    requires c.Data? ==> c.volume <= 100
  {
    if c.Sil? then Silence
    else if c.volume == 100 then c.frame
    else Frame(Scale(c.frame.l, c.volume), Scale(c.frame.r, c.volume))
  }

  /** What a sample becomes at a volume: its share in hundredths, cut toward zero. */
  predicate AtVolume(x: Sample, volume: nat, y: Sample) {
    if x >= 0 then 0 <= 100 * y <= x * volume < 100 * (y + 1) else 100 * (y - 1) < x * volume <= 100 * y <= 0
  }

  lemma {:induction false} ScaleExact(x: Sample, volume: nat, y: Sample)
    requires volume <= 100
    ensures y == Scale(x, volume) <==> AtVolume(x, volume, y)
    ensures AtVolume(x, 100, y) <==> y == x
    ensures AtVolume(x, 0, y) <==> y == 0
  {
    var p := x * volume;
    assert x >= 0 ==> p >= 0;
    assert x < 0 ==> p <= 0;
  }

  /** The queued frames among the cells, in order. */
  function Frames(cells: seq<Cell>): seq<Frame> {
    if cells == [] then []
    else (if cells[0].Data? then [cells[0].frame] else []) + Frames(cells[1..])
  }

  lemma {:induction false} FramesConcat(a: seq<Cell>, b: seq<Cell>)
    ensures Frames(a + b) == Frames(a) + Frames(b)
  {
    if a == [] {
      assert a + b == b;
    } else {
      assert (a + b)[1..] == a[1..] + b;
      FramesConcat(a[1..], b);
    }
  }

  /** The first n frames as they are put into the ring. */
  function Moved(frames: seq<Frame>, n: nat, volume: nat): (c: seq<Cell>)
    requires n <= |frames|
    ensures |c| == n && forall i :: 0 <= i < n ==> c[i] == Data(frames[i], volume)
  {
    seq(n, i requires 0 <= i < n => Data(frames[i], volume))
  }

  /** These cells are the first ones, then the others, then silence. */
  ghost predicate Follows(cells: seq<Cell>, first: seq<Cell>, then': seq<Cell>) {
    exists pad: nat :: cells == first + then' + Quiet(pad)
  }

  function Quiet(n: nat): (c: seq<Cell>)
    ensures |c| == n && AllSilent(c)
  {
    seq(n, _ => Sil)
  }

  predicate AllSilent(cells: seq<Cell>) { forall i :: 0 <= i < |cells| ==> cells[i].Sil? }

  lemma {:induction false} SilentFrames(cells: seq<Cell>)
    requires AllSilent(cells)
    ensures Frames(cells) == []
  {
    if cells != [] {
      SilentFrames(cells[1..]);
    }
  }

  /** The last `run` places before the writer are silence. */
  predicate SilentTail(cells: seq<Cell>, wr: nat, run: nat)
    requires run <= |cells| && wr < |cells|
  {
    AllSilent(Window(cells, Place(wr, |cells| - run, |cells|), run))
  }

  /** A silent tail at least as long as what is unplayed: the unplayed part holds no frame. */
  lemma {:induction false} TailSilent(cells: seq<Cell>, rd: nat, wr: nat, run: nat)
    requires wr < |cells| && rd < |cells| && run <= |cells| && SilentTail(cells, wr, run)
    requires Ahead(rd, wr, |cells|) <= run
    ensures Frames(Window(cells, rd, Ahead(rd, wr, |cells|))) == []
  {
    var m, a := |cells|, Ahead(rd, wr, |cells|);
    var tail := Window(cells, Place(wr, m - run, m), run);
    var w := Window(cells, rd, a);
    forall j | 0 <= j < a
      ensures w[j] == tail[run - a + j]
    {
      AheadPlace(rd, wr, m);
      PlaceTwice(rd, a, m - run, m);
      PlaceTwice(Place(rd, a, m), m - run, run - a + j, m);
      PlaceTwice(rd, a, m - a + j, m);
      assert a + (m - a + j) == m + j;
      PlaceTwice(rd, m, j, m);
      PlaceZero(rd, m);
    }
    SilentFrames(w);
  }

  /** A ring that is silent all the way round. */
  lemma {:induction false} WholeSilent(cells: seq<Cell>, wr: nat, at: nat, n: nat)
    requires wr < |cells| && at < |cells| && n <= |cells| && SilentTail(cells, wr, |cells|)
    ensures Frames(Window(cells, at, n)) == []
  {
    var m := |cells|;
    var all := Window(cells, Place(wr, 0, m), m);
    PlaceZero(wr, m);
    var w := Window(cells, at, n);
    forall j | 0 <= j < n
      ensures w[j].Sil?
    {
      var k := Ahead(wr, Place(at, j, m), m);
      AheadPlace(wr, Place(at, j, m), m);
      assert all[k] == w[j];
    }
    SilentFrames(w);
  }

  /** One more silent place lengthens the tail. */
  lemma {:induction false} TailGrows(cells: seq<Cell>, wr: nat, run: nat)
    requires wr < |cells| && run < |cells| && SilentTail(cells, wr, run)
    ensures SilentTail(cells[wr := Sil], Place(wr, 1, |cells|), run + 1)
  {
    var m := |cells|;
    var from := Place(wr, m - run, m);
    PlaceTwice(wr, 1, m - run - 1, m);
    PlaceTwice(wr, m - run, run, m);
    PlaceZero(wr, m);
    WindowPush(cells, from, run, Sil);
  }

  /** A silent place written into a ring that is silent already. */
  lemma {:induction false} TailNone(cells: seq<Cell>, wr: nat)
    requires wr < |cells|
    ensures SilentTail(cells, wr, 0)
  {
  }

  // ---- Resampling ------------------------------------------------------------------------------

  function Smaller(a: nat, b: nat): nat { if a < b then a else b }

  function Clip(frames: nat): (r: nat)
    ensures r <= MAX_FRAMES && r <= frames
  {
    Smaller(frames, MAX_FRAMES)
  }

  /** Input frames per output frame, in 1024ths. The shifted rate is cut to 32 bits. */
  function Stride(rate: nat, out: nat): (s: nat)
    requires out > 0
    ensures s >= 1
  {
    var shifted: nat := rate * 1024 % U32;
    if Div(shifted, out) == 0 then 1 else Div(shifted, out)
  }

  function OutFrames(frames: nat, stride: nat): (n: nat)
    requires stride >= 1
    ensures n >= 1
  {
    if Div(frames * 1024, stride) == 0 then 1 else Div(frames * 1024, stride)
  }

  /** The input frame an output frame is taken from. */
  function InputAt(i: nat, stride: nat): nat {
    var at: nat := i * stride;
    Div(at, 1024)
  }

  /** The first n output frames: nearest input frame, mono doubled. */
  function Resampled(samples: seq<Sample>, channels: nat, stride: nat, n: nat): (out: seq<Frame>)
    ensures |out| == n
  {
    seq(n, i requires 0 <= i < n =>
      var at := InputAt(i, stride) * channels;
      if at + 1 < |samples| && channels >= 2 then Frame(samples[at], samples[at + 1])
      else if at < |samples| then Frame(samples[at], samples[at])
      else Silence)
  }

  lemma {:induction false} ResampledNext(samples: seq<Sample>, channels: nat, stride: nat, n: nat)
    requires channels >= 1 && InputAt(n, stride) * channels + channels <= |samples|
    ensures
      var at := InputAt(n, stride) * channels;
      Resampled(samples, channels, stride, n + 1) ==
        Resampled(samples, channels, stride, n) + [Frame(samples[at], if channels >= 2 then samples[at + 1]
          else samples[at])]
  {
  }

  lemma {:induction false} DivTimes(a: nat, m: nat)
    requires m > 0
    ensures Div(a, m) * m <= a < Div(a, m) * m + m
  {
    assert a == m * (a / m) + a % m;
  }

  lemma {:induction false} InputZero(stride: nat)
    ensures InputAt(0, stride) == 0
  {
  }

  /** The stride is the input rate in 1024ths of the output rate, cut to 32 bits before the division and
      rounded down, and at least one; an output frame lies on the input frame its strides have reached. */
  lemma {:induction false} StrideExact(rate: nat, out: nat, s: nat)
    requires out > 0
    ensures s == Stride(rate, out) <==>
      if rate * 1024 % U32 < out then s == 1 else s * out <= rate * 1024 % U32 < (s + 1) * out
    ensures rate < 0x40_0000 ==> rate * 1024 % U32 == rate * 1024
  {
    var v: nat := rate * 1024 % U32;
    DivTimes(v, out);
    assert (s + 1) * out == s * out + out;
    if s * out <= v < (s + 1) * out {
      UniqueQuotient(v, out, s, v - s * out);
    }
    if v < out {
      DivSmall(v, out);
    } else if Div(v, out) == 0 {
      assert false;
    }
  }

  lemma {:induction false} InputExact(i: nat, stride: nat, k: nat)
    ensures k == InputAt(i, stride) <==> k * 1024 <= i * stride < (k + 1) * 1024
  {
    DivTimes(i * stride, 1024);
  }

  lemma {:induction false} OutExact(frames: nat, stride: nat, n: nat)
    requires frames >= 1 && stride >= 1
    ensures n == OutFrames(frames, stride) <==>
      if frames * 1024 < stride then n == 1 else n * stride <= frames * 1024 < (n + 1) * stride
  {
    var v: nat := frames * 1024;
    DivTimes(v, stride);
    assert (n + 1) * stride == n * stride + stride;
    if n * stride <= v < (n + 1) * stride {
      UniqueQuotient(v, stride, n, v - n * stride);
    }
    if v < stride {
      DivSmall(v, stride);
    } else if Div(v, stride) == 0 {
      assert false;
    }
  }

  /** Every output frame comes from an input frame. */
  lemma {:induction false} SourceInside(frames: nat, stride: nat, i: nat)
    requires frames >= 1 && stride >= 1 && i < OutFrames(frames, stride)
    ensures InputAt(i, stride) < frames
  {
    DivTimes(frames * 1024, stride);
    var out := Div(frames * 1024, stride);
    if out == 0 {
      DivSmall(0, 1024);
    } else {
      MulAtLeastMul(i + 1, out, stride);
      assert (i + 1) * stride == i * stride + stride;
      DivTimes(i * stride, 1024);
    }
  }

  lemma {:induction false} SampleInside(frames0: nat, frames: nat, channels: nat, src: nat)
    requires src < frames <= frames0 && channels >= 1
    ensures src * channels + channels <= frames0 * channels
  {
    MulAtLeastMul(src + 1, frames0, channels);
    assert (src + 1) * channels == src * channels + channels;
  }

  /** Whatever the rate, the products behind the stride stay inside 32 bits. */
  lemma {:induction false} NoOverflow(frames0: nat, rate: nat, out: nat, i: nat)
    requires frames0 >= 1 && out >= 1 && i <= OutFrames(Clip(frames0), Stride(rate, out))
    ensures Clip(frames0) * 1024 < U32 && i * Stride(rate, out) < U32
  {
    var frames, stride := Clip(frames0), Stride(rate, out);
    var shifted: nat := rate * 1024 % U32;
    DivTimes(shifted, out);
    MulAtLeast(Div(shifted, out), out);
    DivTimes(frames * 1024, stride);
    var n := Div(frames * 1024, stride);
    MulAtLeastMul(i, if n == 0 then 1 else n, stride);
  }

  /** Only the shifted rate can be cut: a stream at the output rate is taken frame by frame if and only
      if the rate is below 4 MiHz. */
  lemma {:induction false} SameRateExact(rate: nat)
    requires rate >= 1
    ensures Stride(rate, rate) == 1024 <==> rate < 0x40_0000
  {
    var shifted: nat := rate * 1024 % U32;
    if rate < 0x40_0000 {
      UniqueQuotient(rate * 1024, rate, 1024, 0);
    } else {
      DivTimes(shifted, rate);
      if Div(shifted, rate) >= 1024 {
        MulAtLeastMul(1024, Div(shifted, rate), rate);
      }
    }
  }

  /** At 4 MiHz the stride collapses: every input frame is queued 1024 times. */
  lemma {:induction false} RateCut()
    ensures Stride(0x40_0000, 48000) == 1 && OutFrames(1, 1) == 1024
  {
    DivSmall(0, 48000);
    UniqueQuotient(1024, 1, 1024, 0);
  }

  /** At equal rates every input frame is queued unchanged. */
  lemma {:induction false} SameRate(frames: nat, rate: nat, i: nat)
    requires frames >= 1 && 1 <= rate < 0x40_0000
    ensures Stride(rate, rate) == 1024 && OutFrames(frames, 1024) == frames && InputAt(i, 1024) == i
  {
    SameRateExact(rate);
    UniqueQuotient(frames * 1024, 1024, frames, 0);
    UniqueQuotient(i * 1024, 1024, i, 0);
  }

  /** When everything fits, the report is the number of input frames if and only if the stride divides
      the input exactly or exceeds it by less than one frame; otherwise the report falls short when the
      stride is within the input, and is too high when it is a whole frame or more beyond it. */
  lemma {:induction false} TakenExact(frames: nat, stride: nat)
    requires frames >= 1 && stride >= 1
    ensures
      var taken, total := InputAt(OutFrames(frames, stride), stride), frames * 1024;
      && (taken == frames <==> if stride <= total then total % stride == 0 else stride < total + 1024)
      && (taken < frames <==> stride <= total && total % stride != 0)
      && (taken > frames <==> stride >= total + 1024)
  {
    var total := frames * 1024;
    DivTimes(total, stride);
    var n := Div(total, stride);
    if stride <= total {
      if n == 0 {
        assert false;
      }
      assert total == stride * n + total % stride;
      DivTimes(n * stride, 1024);
    } else {
      DivSmall(total, stride);
      assert OutFrames(frames, stride) == 1 && 1 * stride == stride;
      DivTimes(stride, 1024);
    }
  }

  /** One frame at 96 kHz for a 44.1 kHz stream is reported as two. */
  lemma {:induction false} TakenTooMany()
    ensures Stride(96000, 44100) == 2229
    ensures InputAt(OutFrames(1, 2229), 2229) == 2
  {
    UniqueQuotient(96000 * 1024, 44100, 2229, 96000 * 1024 - 44100 * 2229);
    DivSmall(1024, 2229);
    UniqueQuotient(2229, 1024, 2, 181);
  }

  class Player {
    const fifo: array<Frame>
    var fifoRd: nat
    var fifoWr: nat
    var fifoCount: nat
    /** The DMA ring and the writer's place in it. */
    const ring: array<Frame>
    var ringWr: nat
    var silenceRun: nat
    /** Negotiated stream rate, and the software volume. */
    var rate: nat
    var swGain: bool
    var swVolume: nat
    var swMuted: bool

    /** The DMA reader's place, what the ring places stand for, and the whole history. */
    ghost var rd: nat
    ghost var cells: seq<Cell>
    ghost var heard: seq<Cell>
    ghost var queued: seq<Frame>

    ghost predicate Shape()
      reads this
    {
      && fifo.Length == FIFO && ring.Length == RING && fifo != ring
      && fifoRd < FIFO && fifoCount <= FIFO && fifoWr == Place(fifoRd, fifoCount, FIFO)
      && ringWr < RING && rd < RING && silenceRun <= RING && |cells| == RING
      && swVolume <= 100 && rate > 0
    }

    /** The ring sounds like its cells. */
    ghost predicate Sounding()
      reads this`cells, ring
      requires ring.Length == RING == |cells|
    {
      forall i :: 0 <= i < RING ==> (cells[i].Data? ==> cells[i].volume <= 100) && ring[i] == Sound(cells[i])
    }

    /** The frames waiting in the FIFO. */
    ghost function Waiting(): seq<Frame>
      reads this`fifoRd, this`fifoCount, fifo
      requires fifoCount <= fifo.Length
      ensures |Waiting()| == fifoCount
    {
      Window(fifo[..], fifoRd, fifoCount)
    }

    /** The ring places the reader has yet to reach. */
    ghost function Unplayed(): seq<Cell>
      reads this`cells, this`rd, this`ringWr
      requires |cells| == RING && rd < RING && ringWr < RING
    {
      Window(cells, rd, Ahead(rd, ringWr, RING))
    }

    ghost predicate Valid()
      reads this, fifo, ring
    {
      && Shape() && Sounding()
      && SilentTail(cells, ringWr, silenceRun)
      && Frames(heard) + Frames(Unplayed()) + Waiting() == queued
    }

    /** The stream as the driver sets it up: a silent ring and an empty FIFO. */
    constructor (rate: nat, swGain: bool)
      requires rate > 0
      ensures Valid() && queued == [] && heard == [] && silenceRun == RING && rd == 0
    {
      fifo := new Frame[FIFO](_ => Silence);
      ring := new Frame[RING](_ => Silence);
      fifoRd, fifoWr, fifoCount, ringWr, silenceRun := 0, 0, 0, 0, RING;
      this.rate, this.swGain, swVolume, swMuted := rate, swGain, 100, false;
      rd, cells, heard, queued := 0, seq(RING, _ => Sil), [], [];
    }

    /** Between two ticks the DMA engine plays n frames. It does not pass the writer, unless the whole
        ring is silence. */
    method Play(n: nat)
      requires Valid() && n <= RING
      requires n <= Ahead(rd, ringWr, RING) || silenceRun == RING
      modifies this`rd, this`heard
      ensures Valid() && heard == old(heard) + Window(cells, old(rd), n)
      ensures rd == Place(old(rd), n, RING)
    {
      hide Frames, Sounding;
      var a := Ahead(rd, ringWr, RING);
      ghost var played := Window(cells, rd, n);
      FramesConcat(heard, played);
      if silenceRun == RING {
        WholeSilent(cells, ringWr, rd, n);
        WholeSilent(cells, ringWr, rd, a);
        WholeSilent(cells, ringWr, Place(rd, n, RING), Ahead(Place(rd, n, RING), ringWr, RING));
      } else {
        WindowSplit(cells, rd, n, a - n);
        FramesConcat(played, Window(cells, Place(rd, n, RING), a - n));
        AheadPlace(rd, ringWr, RING);
        PlaceTwice(rd, n, a - n, RING);
        PlaceAhead(Place(rd, n, RING), a - n, RING);
      }
      heard := heard + played;
      rd := Place(rd, n, RING);
    }

    /** hda_play_pcm: resample to the stream rate, up-mix, and queue what fits. The result is the
        number of input frames reported as taken. */
    method PlayPcm(samples: seq<Sample>, frames0: nat, channels0: int, rate0: int) returns (taken: nat)
      requires Valid() && |samples| >= frames0 * (if channels0 < 1 then 1 else channels0)
      modifies this`fifoWr, this`fifoCount, this`queued, fifo
      ensures Valid() && heard == old(heard)
      ensures
        var frames, stride := Clip(frames0), Stride(if rate0 <= 0 then 44100 else rate0, rate);
        var n := if frames0 == 0 then 0 else Smaller(OutFrames(frames, stride), FIFO - old(fifoCount));
        && queued == old(queued) + Resampled(samples, if channels0 < 1 then 1 else channels0, stride, n)
        && taken == InputAt(n, stride)
    {
      hide Frames, Sounding, SilentTail, Waiting, Unplayed, Place, Div, Stride, OutFrames, Resampled, InputAt;
      assert queued + [] == queued;
      InputZero(if rate0 <= 0 then Stride(44100, rate) else Stride(rate0, rate));
      if frames0 == 0 {
        return 0;
      }
      var channels := if channels0 < 1 then 1 else channels0;
      var frames := Clip(frames0);
      var stride := Stride(if rate0 <= 0 then 44100 else rate0, rate);
      var out := OutFrames(frames, stride);
      var n := 0;
      ghost var room := FIFO - fifoCount;
      while n < out
        invariant 0 <= n <= out && n <= room && fifoCount == old(fifoCount) + n && Valid() && rate == old(rate)
        invariant queued == old(queued) + Resampled(samples, channels, stride, n)
        invariant heard == old(heard)
      {
        if fifoCount >= FIFO {
          break;
        }
        var src := InputAt(n, stride);
        SourceInside(frames, stride, n);
        if src >= frames {
          break;
        }
        SampleInside(frames0, frames, channels, src);
        var l := samples[src * channels];
        var r := if channels >= 2 then samples[src * channels + 1] else l;
        Enqueue(Frame(l, r));
        ResampledNext(samples, channels, stride, n);
        n := n + 1;
      }
      taken := InputAt(n, stride);
    }

    /** One frame into the FIFO. */
    method Enqueue(f: Frame)
      requires Valid() && fifoCount < FIFO
      modifies this`fifoWr, this`fifoCount, this`queued, fifo
      ensures Valid() && fifoCount == old(fifoCount) + 1 && queued == old(queued) + [f]
    {
      hide Frames, SilentTail;
      WindowPush(fifo[..], fifoRd, fifoCount, f);
      PlaceTwice(fifoRd, fifoCount, 1, FIFO);
      fifo[fifoWr] := f;
      fifoWr := Place(fifoWr, 1, FIFO);
      fifoCount := fifoCount + 1;
      queued := queued + [f];
    }

    /** The volume the drain applies: 100 leaves frames as they are. */
    function DrainVolume(): nat
      reads this`swGain, this`swMuted, this`swVolume
    {
      if swGain && (swMuted || swVolume < 100) then if swMuted then 0 else swVolume else 100
    }

    /** Write n places of silence. */
    method Pad(n: nat)
      requires Valid() && Ahead(rd, ringWr, RING) + n < RING && silenceRun + n <= RING
      modifies this`ringWr, this`silenceRun, this`cells, ring
      ensures Shape() && Valid() && silenceRun == old(silenceRun) + n
      ensures Frames(Unplayed()) == old(Frames(Unplayed()))
        && Ahead(rd, ringWr, RING) == old(Ahead(rd, ringWr, RING)) + n
      ensures Unplayed() == old(Unplayed()) + Quiet(n)
    {
      hide Frames, SilentTail;
      var i := 0;
      while i < n
        invariant 0 <= i <= n && Valid() && silenceRun == old(silenceRun) + i
        invariant Frames(Unplayed()) == old(Frames(Unplayed()))
          && Ahead(rd, ringWr, RING) == old(Ahead(rd, ringWr, RING)) + i
        invariant Unplayed() == old(Unplayed()) + Quiet(i)
      {
        PadOne();
        i := i + 1;
      }
    }

    method PadOne()
      requires Valid() && Ahead(rd, ringWr, RING) + 1 < RING && silenceRun < RING
      modifies this`ringWr, this`silenceRun, this`cells, ring
      ensures Valid() && silenceRun == old(silenceRun) + 1
      ensures Frames(Unplayed()) == old(Frames(Unplayed()))
        && Ahead(rd, ringWr, RING) == old(Ahead(rd, ringWr, RING)) + 1
      ensures Unplayed() == old(Unplayed()) + [Sil]
    {
      hide Frames, SilentTail;
      TailGrows(cells, ringWr, silenceRun);
      PushCell(cells, rd, ringWr, Sil);
      ring[ringWr] := Silence;
      cells := cells[ringWr := Sil];
      ringWr := Place(ringWr, 1, RING);
      silenceRun := silenceRun + 1;
    }

    /** Move n frames from the FIFO to the ring. */
    method Drain(n: nat)
      requires Valid() && Shape() && n <= fifoCount && Ahead(rd, ringWr, RING) + n < RING && n > 0
      modifies this`ringWr, this`silenceRun, this`cells, this`fifoRd, this`fifoCount, ring
      ensures Shape() && Waiting() == old(Waiting())[n..]
      ensures Valid() && silenceRun == 0 && fifoCount == old(fifoCount) - n
      ensures Ahead(rd, ringWr, RING) == old(Ahead(rd, ringWr, RING)) + n
      ensures Unplayed() == old(Unplayed()) + Moved(old(Waiting()), n, DrainVolume())
    {
      hide Frames, SilentTail;
      TailNone(cells, ringWr);
      silenceRun := 0;
      var i := 0;
      while i < n
        invariant 0 <= i <= n && Valid() && silenceRun == 0 && fifoCount == old(fifoCount) - i
        invariant Ahead(rd, ringWr, RING) == old(Ahead(rd, ringWr, RING)) + i
        invariant Waiting() == old(Waiting())[i..]
        invariant Unplayed() == old(Unplayed()) + Moved(old(Waiting()), i, DrainVolume())
      {
        DrainOne();
        i := i + 1;
      }
    }

    method DrainOne()
      requires Valid() && fifoCount > 0 && Ahead(rd, ringWr, RING) + 1 < RING && silenceRun == 0
      modifies this`ringWr, this`cells, this`fifoRd, this`fifoCount, ring
      ensures Valid() && fifoCount == old(fifoCount) - 1
      ensures Ahead(rd, ringWr, RING) == old(Ahead(rd, ringWr, RING)) + 1
      ensures Unplayed() == old(Unplayed()) + [Data(old(Waiting()[0]), DrainVolume())]
      ensures Waiting() == old(Waiting())[1..]
    {
      hide Frames, SilentTail, Place, Ahead, Scale;
      var f := fifo[fifoRd];
      var v := DrainVolume();
      var out := f;
      if v < 100 {
        out := Frame(Scale(f.l, v), Scale(f.r, v));
      }
      ghost var c := Data(f, v);
      WindowFirst(fifo[..], fifoRd, fifoCount);
      PlaceTwice(fifoRd, 1, fifoCount - 1, FIFO);
      PushCell(cells, rd, ringWr, c);
      assert Frames(heard) + (Frames(Unplayed()) + [f]) + Window(fifo[..], Place(fifoRd, 1, FIFO),
        fifoCount - 1) == queued;
      ring[ringWr] := out;
      cells := cells[ringWr := c];
      ringWr := Place(ringWr, 1, RING);
      fifoRd, fifoCount := Place(fifoRd, 1, FIFO), fifoCount - 1;
      TailNone(cells, ringWr);
    }

    /** hda_tick, at a moment when the DMA position register reads lpib. Behind what is unplayed, or behind a
        short silence when that is silence throughout, come the frames that fit, then silence; the ring ends up
        full, or silent all round with the FIFO empty. */
    method Tick(lpib: nat)
      requires Valid() && lpib % RING_BYTES / 4 == rd
      modifies this`ringWr, this`silenceRun, this`cells, this`fifoRd, this`fifoCount, ring
      ensures Valid() && queued == old(queued) && heard == old(heard)
      ensures (fifoCount == 0 && silenceRun == RING) || Ahead(rd, ringWr, RING) == RING - 1
      ensures fifoCount <= old(fifoCount) && Waiting() == old(Waiting())[old(fifoCount) - fifoCount..]
      ensures Follows(Unplayed(),
        if old(fifoCount > 0 && 0 < silenceRun && FRESH_LEAD < Ahead(rd, ringWr, RING) <= silenceRun)
        then Quiet(FRESH_LEAD) else old(Unplayed()),
        Moved(old(Waiting()), old(fifoCount) - fifoCount, DrainVolume()))
    {
      hide Frames, SilentTail, Sounding, Valid, Waiting, Unplayed;
      var at := lpib % RING_BYTES / 4;
      Places();
      FreshStart(at);
      var space := (at + RING - ringWr - 1) % RING;
      SpaceLeft(at, ringWr);
      ghost var before := Unplayed();
      var n := DrainSpace(space);
      ghost var drained := Unplayed();
      var pad := PadSpace(space - n);
      assert drained == before + Moved(old(Waiting()), n, DrainVolume());
    }

    ghost method Places()
      requires Valid()
      ensures Shape()
    {
      hide Frames, SilentTail, Sounding;
    }

    /** Waiting frames do not wait for a long silence to be played. */
    method FreshStart(at: nat)
      requires Valid() && Shape() && at == rd
      modifies this`ringWr, this`silenceRun, this`cells, ring
      ensures Valid() && Shape() && Unplayed() ==
        if fifoCount > 0 && old(0 < silenceRun && FRESH_LEAD < Ahead(rd, ringWr, RING) <= silenceRun)
        then Quiet(FRESH_LEAD) else old(Unplayed())
    {
      hide Frames, SilentTail, Sounding, Valid, Waiting, Unplayed;
      var ahead := (ringWr + RING - at) % RING;
      if fifoCount > 0 && silenceRun > 0 && ahead <= silenceRun && ahead > FRESH_LEAD {
        Resync(at);
      }
    }

    /** Drain as many frames as there is space for. */
    method DrainSpace(space: nat) returns (n: nat)
      requires Valid() && Shape() && space == RING - 1 - Ahead(rd, ringWr, RING)
      modifies this`ringWr, this`silenceRun, this`cells, this`fifoRd, this`fifoCount, ring
      ensures Valid() && Shape() && n == (if old(fifoCount) < space then old(fifoCount) else space)
      ensures |old(Waiting())| == old(fifoCount) == fifoCount + n && Waiting() == old(Waiting())[n..]
      ensures Ahead(rd, ringWr, RING) == old(Ahead(rd, ringWr, RING)) + n
      ensures Unplayed() == old(Unplayed()) + Moved(old(Waiting()), n, DrainVolume())
    {
      hide Frames, SilentTail, Sounding, Valid, Waiting, Unplayed;
      n := if fifoCount < space then fifoCount else space;
      if n > 0 {
        Drain(n);
      }
    }

    /** Once nothing waits, fill the space with silence, up to a whole ring of it. */
    method PadSpace(space: nat) returns (pad: nat)
      requires Valid() && Shape() && space == RING - 1 - Ahead(rd, ringWr, RING)
      modifies this`ringWr, this`silenceRun, this`cells, ring
      ensures Valid() && Shape() && Unplayed() == old(Unplayed()) + Quiet(pad) && Waiting() == old(Waiting())
      ensures fifoCount == 0 ==> silenceRun == RING || Ahead(rd, ringWr, RING) == RING - 1
      ensures fifoCount > 0 ==> ringWr == old(ringWr)
    {
      hide Frames, SilentTail, Sounding, Valid, Waiting, Unplayed;
      pad := 0;
      if fifoCount == 0 && silenceRun < RING {
        pad := RING - silenceRun;
        if pad > space {
          pad := space;
        }
        Pad(pad);
      }
    }

    /** Everything unplayed is silence: start over just ahead of the reader. */
    method Resync(at: nat)
      requires Valid() && at == rd && silenceRun > 0 && Ahead(rd, ringWr, RING) <= silenceRun
      modifies this`ringWr, this`silenceRun, this`cells, ring
      ensures Valid() && Shape() && silenceRun == FRESH_LEAD && Ahead(rd, ringWr, RING) == FRESH_LEAD
      ensures Unplayed() == Quiet(FRESH_LEAD)
    {
      hide Frames, SilentTail;
      TailSilent(cells, rd, ringWr, silenceRun);
      TailNone(cells, rd);
      PlaceAhead(rd, 0, RING);
      PlaceZero(rd, RING);
      SilentFrames([]);
      assert Window(cells, rd, 0) == [];
      ringWr, silenceRun := at, 0;
      Pad(FRESH_LEAD);
    }
  }

  /** What a queued frame sounds like when it is drained: muted it is silence, at full volume or with a
      hardware amplifier it is unchanged, otherwise each sample is scaled. */
  lemma {:induction false} VolumeExact(p: Player, f: Frame)
    requires p.swVolume <= 100
    ensures
      var s := Sound(Data(f, p.DrainVolume()));
      if !p.swGain then s == f
      else if p.swMuted then s == Frame(0, 0)
      else AtVolume(f.l, p.swVolume, s.l) && AtVolume(f.r, p.swVolume, s.r)
  {
    var v := p.DrainVolume();
    ScaleExact(f.l, v, Scale(f.l, v));
    ScaleExact(f.r, v, Scale(f.r, v));
  }

  lemma {:induction false} SpaceLeft(rd: nat, wr: nat)
    requires rd < RING && wr < RING
    ensures (rd + RING - wr - 1) % RING == RING - 1 - Ahead(rd, wr, RING)
  {
  }

  /** Writing at the writer's place makes the unplayed part one place longer. */
  lemma {:induction false} PushCell(cells: seq<Cell>, rd: nat, wr: nat, c: Cell)
    requires rd < |cells| && wr < |cells| && Ahead(rd, wr, |cells|) + 1 < |cells|
    ensures
      var m, a := |cells|, Ahead(rd, wr, |cells|);
      && Ahead(rd, Place(wr, 1, m), m) == a + 1
      && Window(cells[wr := c], rd, a + 1) == Window(cells, rd, a) + [c]
      && Frames(Window(cells[wr := c], rd, a + 1)) == Frames(Window(cells, rd, a)) + if c.Data? then [c.frame] else []
  {
    var m, a := |cells|, Ahead(rd, wr, |cells|);
    AheadPlace(rd, wr, m);
    PlaceTwice(rd, a, 1, m);
    PlaceAhead(rd, a + 1, m);
    WindowPush(cells, rd, a, c);
    FramesConcat(Window(cells, rd, a), [c]);
    assert [c][1..] == [];
  }
}
