/** The browser's decode hand-off: the tick and the worker task as interleaved single steps. */
module Handoff {
  import opened Bytes

  datatype JobState = JobIdle | JobQueued | JobRunning

  /** Where the tick is: outside the hand-off, inside br_job_submit, or presenting under the lock. */
  datatype TickPc = Ready | Checked | Stored | Queued | Presenting

  /** Where the worker is. Exchanging takes three assignments. */
  datatype WorkerPc =
    | Poll | Claimed | Decoding(target: Option<nat>) | Wanting
    | SwapLoad | SwapFront(t: nat) | SwapBack(t: nat) | Composing | Unlocking | Finishing

  datatype LockOwner = Free | ByTick | ByWorker

  /** Shared state of the two tasks. `front` and `back` point at one of two frame arrays, `fill` and
      `jobBuf` at one of two payload buffers; `submitted` is the payload as it was handed over. */
  datatype State = State(
    job: JobState, jobImg: bool, jobBuf: nat, jobGen: nat,
    fill: nat, gen: nat, bufs: seq<seq<Byte>>, front: nat, back: nat, lock: LockOwner,
    tick: TickPc, worker: WorkerPc, submitted: seq<Byte>)

  datatype Label =
    | PayloadByte(i: nat, b: Byte) | SubmitCheck | SubmitStore(img: bool) | SubmitQueue | SubmitFlip
    | Navigate | PresentLock | PresentRead | PresentUnlock
    | Claim | StartDecode | DecodeStep | DecodeFails | CheckGen | WorkerLock
    | LoadFront | StoreFront | StoreBack | ComposeStep | ComposeDone | WorkerUnlock | Finish

  predicate IsStart(s: State) {
    && s.job == JobIdle && s.fill == 0 && s.front == 0 && s.back == 1 && s.lock == Free
    && s.tick == Ready && s.worker == Poll && |s.bufs| == 2 && s.jobBuf < 2
  }

  /** What one step does; None when it cannot happen now. */
  function Do(s: State, l: Label): Option<State>
    requires s.fill < |s.bufs|
  {
    match l
    case PayloadByte(i, b) =>
      if s.tick == Ready && i < |s.bufs[s.fill]| then
        var filled: seq<Byte> := s.bufs[s.fill][..i] + [b] + s.bufs[s.fill][i + 1..];
        Some(s.(bufs := s.bufs[s.fill := filled]))
      else None
    case SubmitCheck => if s.tick == Ready && s.job == JobIdle then Some(s.(tick := Checked)) else None
    case SubmitStore(img) =>
      if s.tick == Checked
      then Some(s.(jobImg := img, jobBuf := s.fill, jobGen := s.gen, submitted := s.bufs[s.fill], tick := Stored))
        else None
    case SubmitQueue => if s.tick == Stored then Some(s.(job := JobQueued, tick := Queued)) else None
    case SubmitFlip => if s.tick == Queued && s.fill < 2 then Some(s.(fill := 1 - s.fill, tick := Ready)) else None
    case Navigate => if s.tick == Ready then Some(s.(gen := s.gen + 1)) else None
    case PresentLock => if s.tick == Ready && s.lock == Free then Some(s.(lock := ByTick, tick := Presenting)) else None
    case PresentRead => if s.tick == Presenting then Some(s) else None
    case PresentUnlock => if s.tick == Presenting then Some(s.(lock := Free, tick := Ready)) else None
    case Claim => if s.worker == Poll && s.job == JobQueued then Some(s.(job := JobRunning, worker := Claimed))
      else None
    case StartDecode =>
      if s.worker == Claimed then Some(s.(worker := Decoding(if s.jobImg then Some(s.back) else None))) else None
    case DecodeStep => if s.worker.Decoding? then Some(s) else None
    case DecodeFails => if s.worker.Decoding? then Some(s.(worker := Finishing)) else None
    case CheckGen =>
      if s.worker.Decoding? then Some(s.(worker := if s.jobGen == s.gen then Wanting else Finishing)) else None
    case WorkerLock =>
      if s.worker == Wanting && s.lock == Free
      then Some(s.(lock := ByWorker, worker := if s.jobImg then SwapLoad else Composing)) else None
    case LoadFront => if s.worker == SwapLoad then Some(s.(worker := SwapFront(s.front))) else None
    case StoreFront => if s.worker.SwapFront? then Some(s.(front := s.back, worker := SwapBack(s.worker.t))) else None
    case StoreBack => if s.worker.SwapBack? then Some(s.(back := s.worker.t, worker := Unlocking)) else None
    case ComposeStep => if s.worker == Composing then Some(s) else None
    case ComposeDone => if s.worker == Composing then Some(s.(worker := Unlocking)) else None
    case WorkerUnlock => if s.worker == Unlocking then Some(s.(lock := Free, worker := Finishing)) else None
    case Finish => if s.worker == Finishing then Some(s.(job := JobIdle, worker := Poll)) else None
  }

  /** The payload buffer a step of the parser writes, or a step of the worker reads. */
  function Writes(s: State, l: Label): Option<nat> { if l.PayloadByte? then Some(s.fill) else None }

  /** The frame array the presenter reads, and the one the worker writes, in a step. */
  function Reads(s: State, l: Label): Option<nat> { if l.PresentRead? then Some(s.front) else None }

  // ---- The invariant ---------------------------------------------------------------------------

  predicate Holding(w: WorkerPc) {
    w in {SwapLoad, Composing, Unlocking} || w.SwapFront? || w.SwapBack?
  }

  predicate JobOk(s: State) {
    && |s.bufs| == 2 && s.fill < 2 && s.jobBuf < 2
    && (s.worker == Poll <==> s.job != JobRunning)
    && (s.tick in {Checked, Stored} ==> s.job == JobIdle)
    && (s.tick == Stored ==> s.jobBuf == s.fill && s.submitted == s.bufs[s.fill])
    && (s.job != JobIdle ==>
          s.submitted == s.bufs[s.jobBuf] && if s.tick == Queued then s.jobBuf == s.fill else s.jobBuf != s.fill)
  }

  predicate FramesOk(s: State) {
    && s.front < 2 && s.back < 2
    && (s.lock == ByWorker <==> Holding(s.worker)) && (s.lock == ByTick <==> s.tick == Presenting)
    && (match s.worker
        case SwapFront(t) => t == s.front && s.front != s.back
        case SwapBack(t) => s.front == s.back && t == 1 - s.front
        case Decoding(target) => s.front != s.back && (target.Some? ==> target.value == s.back)
        case _ => s.front != s.back)
  }

  predicate Inv(s: State) { JobOk(s) && FramesOk(s) }

  lemma {:induction false} StartOk(s: State)
    requires IsStart(s)
    ensures Inv(s)
  {
  }

  lemma {:induction false} JobStep(s: State, l: Label)
    requires JobOk(s) && Do(s, l).Some?
    ensures JobOk(Do(s, l).value)
  {
  }

  lemma {:induction false} FrameStep(s: State, l: Label)
    requires |s.bufs| == 2 && s.fill < 2 && FramesOk(s) && Do(s, l).Some?
    ensures FramesOk(Do(s, l).value)
  {
  }

  // ---- Runs ----------------------------------------------------------------------------------------

  /** A run: every step happens where it can. */
  ghost predicate IsRun(run: seq<State>, labels: seq<Label>) {
    && |run| == |labels| + 1 && IsStart(run[0])
    && forall i :: 0 <= i < |labels| ==>
         |run[i].bufs| == 2 && run[i].fill < 2 && Do(run[i], labels[i]) == Some(run[i + 1])
  }

  lemma {:induction false} RunOk(run: seq<State>, labels: seq<Label>, i: nat)
    requires IsRun(run, labels) && i < |run|
    ensures Inv(run[i])
  {
    hide Do, JobOk, FramesOk;
    if i == 0 {
      StartOk(run[0]);
    } else {
      RunOk(run, labels, i - 1);
      assert Do(run[i - 1], labels[i - 1]) == Some(run[i - 1 + 1]);
      JobStep(run[i - 1], labels[i - 1]);
      FrameStep(run[i - 1], labels[i - 1]);
    }
  }

  /** In every run, under every interleaving of the two tasks:
      - a payload byte never goes into the buffer of a queued or running job, whose payload stays as
        it was submitted;
      - front and back are the two frame arrays, except inside the worker's locked exchange;
      - the presenter never reads the array an image is being decoded into, nor while the worker
        exchanges or composes. */
  lemma {:induction false} HandoffSafe(run: seq<State>, labels: seq<Label>, i: nat)
    requires IsRun(run, labels) && i < |labels|
    ensures
      var s, l := run[i], labels[i];
      && (Writes(s, l).Some? && s.job != JobIdle ==> Writes(s, l).value != s.jobBuf)
      && (s.job != JobIdle ==> s.jobBuf < |s.bufs| && s.bufs[s.jobBuf] == s.submitted)
      && (s.lock != ByWorker ==> {s.front, s.back} == {0, 1})
      && (Reads(s, l).Some? ==>
            && !Holding(s.worker)
            && (s.worker.Decoding? ==> Reads(s, l) != s.worker.target))
  {
    RunOk(run, labels, i);
    assert Do(run[i], labels[i]) == Some(run[i + 1]);
  }

  /** A payload byte is stored at its place in the buffer being filled, and nothing else changes. */
  lemma {:induction false} ByteStored(s: State, i: nat, b: Byte, t: State)
    requires s.fill < |s.bufs|
    ensures Do(s, PayloadByte(i, b)) == Some(t) <==>
      && s.tick == Ready && i < |s.bufs[s.fill]| && t == s.(bufs := t.bufs) && |t.bufs| == |s.bufs|
      && (forall k :: 0 <= k < |s.bufs| && k != s.fill ==> t.bufs[k] == s.bufs[k])
      && |t.bufs[s.fill]| == |s.bufs[s.fill]|
      && forall j :: 0 <= j < |s.bufs[s.fill]| ==> t.bufs[s.fill][j] == if j == i then b else s.bufs[s.fill][j]
  {
    if i < |s.bufs[s.fill]| {
      var old' := s.bufs[s.fill];
      var filled: seq<Byte> := old'[..i] + [b] + old'[i + 1..];
      assert forall j :: 0 <= j < |old'| ==> filled[j] == if j == i then b else old'[j];
      if |t.bufs| == |s.bufs| && |t.bufs[s.fill]| == |old'|
        && (forall j :: 0 <= j < |old'| ==> t.bufs[s.fill][j] == if j == i then b else old'[j])
        && (forall k :: 0 <= k < |s.bufs| && k != s.fill ==> t.bufs[k] == s.bufs[k]) {
        assert t.bufs[s.fill] == filled;
        assert t.bufs == s.bufs[s.fill := filled];
      }
    }
  }

  // ---- What a job does -------------------------------------------------------------------------------

  /** A generation check that the job passes: nothing was navigated away since it was submitted. */
  ghost predicate Passes(run: seq<State>, labels: seq<Label>, g: nat)
    requires |run| == |labels| + 1
  {
    g < |labels| && labels[g] == CheckGen && run[g].jobGen == run[g].gen
  }

  /** Among the steps from c to i the job passed its check. */
  ghost predicate Passed(run: seq<State>, labels: seq<Label>, c: nat, i: nat)
    requires |run| == |labels| + 1
  {
    exists g: nat :: c <= g < i && Passes(run, labels, g)
  }

  /** The job claimed at step c has not ended before step i. */
  predicate Under(labels: seq<Label>, c: nat, i: nat) {
    c < i <= |labels| && labels[c] == Claim && forall j :: c < j < i ==> labels[j] != Claim && labels[j] != Finish
  }

  predicate Exchanged(a: State, b: State) { b.front == a.back && b.back == a.front }

  predicate Unmoved(a: State, b: State) { b.front == a.front && b.back == a.back }

  /** Where a job stands that was claimed in state a: the check comes before the exchange, and only a job that
      passed it exchanges the frames, and only if it is an image. */
  predicate Standing(a: State, s: State, passed: bool) {
    && s.job == JobRunning && s.jobImg == a.jobImg && s.jobGen == a.jobGen && s.jobBuf == a.jobBuf
    && match s.worker
       case Poll => false
       case Claimed => !passed && Unmoved(a, s)
       case Decoding(target) => !passed && Unmoved(a, s) && target == (if s.jobImg then Some(a.back) else None)
       case Wanting => passed && Unmoved(a, s)
       case SwapLoad => passed && s.jobImg && Unmoved(a, s)
       case SwapFront(t) => passed && s.jobImg && Unmoved(a, s) && t == a.front
       case SwapBack(t) => passed && s.jobImg && s.front == a.back && t == a.front
       case Composing => passed && !s.jobImg && Unmoved(a, s)
       case Unlocking => passed && if s.jobImg then Exchanged(a, s) else Unmoved(a, s)
       case Finishing => if passed && s.jobImg then Exchanged(a, s) else Unmoved(a, s)
  }

  lemma {:induction false} StandingStarts(s: State)
    requires Inv(s) && Do(s, Claim).Some?
    ensures Standing(s, Do(s, Claim).value, false)
  {
  }

  lemma {:induction false} StandingStep(a: State, s: State, l: Label, passed: bool)
    requires Inv(s) && Standing(a, s, passed) && Do(s, l).Some? && l != Claim && l != Finish
    ensures Standing(a, Do(s, l).value, passed || (l == CheckGen && s.jobGen == s.gen))
  {
  }

  /** While a job runs it stands where its steps so far have brought it. */
  lemma {:induction false} JobStands(run: seq<State>, labels: seq<Label>, c: nat, i: nat)
    requires IsRun(run, labels) && Under(labels, c, i)
    ensures Standing(run[c], run[i], Passed(run, labels, c, i))
    decreases i
  {
    hide Do, Inv, Standing, Passes;
    var l := i - 1;
    RunOk(run, labels, l);
    assert Do(run[l], labels[l]) == Some(run[l + 1]);
    assert Passes(run, labels, l) <==> labels[l] == CheckGen && run[l].jobGen == run[l].gen by {
      PassesIs(run, labels, l);
    }
    if l == c {
      assert !Passes(run, labels, c);
      assert !Passed(run, labels, c, i);
      StandingStarts(run[c]);
    } else {
      JobStands(run, labels, c, l);
      StandingStep(run[c], run[l], labels[l], Passed(run, labels, c, l));
      assert Passed(run, labels, c, i) <==> Passed(run, labels, c, l) || Passes(run, labels, l);
    }
  }

  lemma {:induction false} PassesIs(run: seq<State>, labels: seq<Label>, g: nat)
    requires |run| == |labels| + 1 && g < |labels|
    ensures Passes(run, labels, g) <==> labels[g] == CheckGen && run[g].jobGen == run[g].gen
  {
  }

  /** When a job ends, the frame it was decoded into is shown, and the one shown before is the next to decode
      into, if and only if it is an image and passed its check; otherwise the frames are where they were. */
  lemma {:induction false} JobEnds(run: seq<State>, labels: seq<Label>, c: nat, i: nat)
    requires IsRun(run, labels) && Under(labels, c, i) && i < |labels| && labels[i] == Finish
    ensures run[i + 1].job == JobIdle && run[i + 1].worker == Poll
    ensures
      if run[c].jobImg && Passed(run, labels, c, i) then Exchanged(run[c], run[i + 1])
      else Unmoved(run[c], run[i + 1])
    ensures run[c].front != run[c].back
  {
    JobStands(run, labels, c, i);
    RunOk(run, labels, c);
    assert Do(run[i], labels[i]) == Some(run[i + 1]);
    assert Do(run[c], labels[c]) == Some(run[c + 1]);
  }

  // ---- Navigation against the check ------------------------------------------------------------------

  /** Nothing is navigated away from between steps g and i. */
  predicate Stays(labels: seq<Label>, g: nat, i: nat)
    requires g <= i <= |labels|
  {
    forall j :: g <= j < i ==> labels[j] != Navigate
  }

  lemma {:induction false} GenStep(s: State, l: Label)
    requires Inv(s) && s.job == JobRunning && Do(s, l).Some?
    ensures
      var t := Do(s, l).value;
      t.jobGen == s.jobGen && t.gen == s.gen + if l == Navigate then 1 else 0
  {
  }

  /** The check comes before the exchange and outside the lock: a job that passed it is still the current one
      at a later step of its own if and only if nobody has navigated away in between. */
  lemma {:induction false} CurrentExact(run: seq<State>, labels: seq<Label>, c: nat, g: nat, i: nat)
    requires IsRun(run, labels) && Under(labels, c, i) && c < g <= i && Passes(run, labels, g)
    ensures run[i].jobGen <= run[i].gen
    ensures run[i].jobGen == run[i].gen <==> Stays(labels, g, i)
    decreases i
  {
    hide Do, Inv, Standing;
    if g < i {
      var l := i - 1;
      CurrentExact(run, labels, c, g, l);
      RunOk(run, labels, l);
      JobStands(run, labels, c, l);
      assert run[l].job == JobRunning by {
        StandingRuns(run[c], run[l], Passed(run, labels, c, l));
      }
      assert Do(run[l], labels[l]) == Some(run[l + 1]);
      GenStep(run[l], labels[l]);
    }
  }

  lemma {:induction false} StandingRuns(a: State, s: State, passed: bool)
    requires Standing(a, s, passed)
    ensures s.job == JobRunning
  {
  }

  /** The state after these steps. */
  function After(s: State, labels: seq<Label>): Option<State>
    decreases |labels|
  {
    if labels == [] then Some(s)
    else if s.fill < |s.bufs| && Do(s, labels[0]).Some? then After(Do(s, labels[0]).value, labels[1..])
    else None
  }

  /** So a frame of the page before can be shown: an image is submitted and decoded, the user navigates behind
      the check, and the worker exchanges the frames for a page that is no longer the current one. */
  lemma {:induction false} StaleFrame(s: State)
    requires IsStart(s)
    ensures
      var labels := [SubmitCheck, SubmitStore(true), SubmitQueue, SubmitFlip, Claim, StartDecode, CheckGen, Navigate,
                     WorkerLock, LoadFront, StoreFront, StoreBack];
      var t := After(s, labels);
      t.Some? && t.value.jobGen < t.value.gen && Exchanged(s, t.value)
  {
    hide After;
    var a := Waiting(s);
    var b := a.(fill := 1, tick := Ready, job := JobRunning, worker := Wanting);
    var last := [LoadFront, StoreFront, StoreBack];
    Submitting(s);
    StepsOn(s, [SubmitCheck, SubmitStore(true), SubmitQueue],
      [SubmitFlip, Claim, StartDecode, CheckGen] + ([Navigate, WorkerLock] + last), a);
    Checking(a);
    StepsOn(a, [SubmitFlip, Claim, StartDecode, CheckGen], [Navigate, WorkerLock] + last, b);
    Leaving(b);
    StepsOn(b, [Navigate, WorkerLock], last, b.(gen := b.gen + 1, lock := ByWorker, worker := SwapLoad));
    Exchanging(b.(gen := b.gen + 1, lock := ByWorker, worker := SwapLoad));
    assert [SubmitCheck, SubmitStore(true), SubmitQueue]
      + ([SubmitFlip, Claim, StartDecode, CheckGen] + ([Navigate, WorkerLock] + last)) ==
      [SubmitCheck, SubmitStore(true), SubmitQueue, SubmitFlip, Claim, StartDecode, CheckGen, Navigate, WorkerLock,
       LoadFront, StoreFront, StoreBack];
  }

  /** The start with an image queued. */
  function Waiting(s: State): State
    requires s.bufs != []
  {
    s.(tick := Queued, jobImg := true, jobBuf := 0, jobGen := s.gen, submitted := s.bufs[0], job := JobQueued)
  }

  lemma {:induction false} Submitting(s: State)
    requires IsStart(s)
    ensures After(s, [SubmitCheck, SubmitStore(true), SubmitQueue]) == Some(Waiting(s))
  {
    hide After;
    var s1 := s.(tick := Checked);
    var s2 := Waiting(s).(job := JobIdle, tick := Stored);
    OnStep(s, [SubmitCheck, SubmitStore(true), SubmitQueue], [SubmitStore(true), SubmitQueue], s1);
    OnStep(s1, [SubmitStore(true), SubmitQueue], [SubmitQueue], s2);
    OnStep(s2, [SubmitQueue], [], Waiting(s));
  }

  lemma {:induction false} Checking(s: State)
    requires |s.bufs| == 2 && s.fill == 0 && s.tick == Queued && s.worker == Poll && s.job == JobQueued
      && s.jobGen == s.gen
    ensures After(s, [SubmitFlip, Claim, StartDecode, CheckGen]) ==
      Some(s.(fill := 1, tick := Ready, job := JobRunning, worker := Wanting))
  {
    hide After;
    var s1 := s.(fill := 1, tick := Ready);
    var s2 := s1.(job := JobRunning, worker := Claimed);
    var s3 := s2.(worker := Decoding(if s.jobImg then Some(s.back) else None));
    OnStep(s, [SubmitFlip, Claim, StartDecode, CheckGen], [Claim, StartDecode, CheckGen], s1);
    OnStep(s1, [Claim, StartDecode, CheckGen], [StartDecode, CheckGen], s2);
    OnStep(s2, [StartDecode, CheckGen], [CheckGen], s3);
    OnStep(s3, [CheckGen], [], s3.(worker := Wanting));
  }

  lemma {:induction false} Leaving(s: State)
    requires |s.bufs| == 2 && s.fill < 2 && s.tick == Ready && s.worker == Wanting && s.lock == Free && s.jobImg
    ensures After(s, [Navigate, WorkerLock]) == Some(s.(gen := s.gen + 1, lock := ByWorker, worker := SwapLoad))
  {
    hide After;
    var s1 := s.(gen := s.gen + 1);
    OnStep(s, [Navigate, WorkerLock], [WorkerLock], s1);
    OnStep(s1, [WorkerLock], [], s1.(lock := ByWorker, worker := SwapLoad));
  }

  lemma {:induction false} Exchanging(s: State)
    requires |s.bufs| == 2 && s.fill < 2 && s.worker == SwapLoad
    ensures After(s, [LoadFront, StoreFront, StoreBack]) ==
      Some(s.(front := s.back, back := s.front, worker := Unlocking))
  {
    hide After;
    var s1 := s.(worker := SwapFront(s.front));
    var s2 := s1.(front := s.back, worker := SwapBack(s.front));
    OnStep(s, [LoadFront, StoreFront, StoreBack], [StoreFront, StoreBack], s1);
    OnStep(s1, [StoreFront, StoreBack], [StoreBack], s2);
    OnStep(s2, [StoreBack], [], s2.(back := s.front, worker := Unlocking));
  }

  lemma {:induction false} StepsOn(s: State, first: seq<Label>, rest: seq<Label>, t: State)
    requires After(s, first) == Some(t)
    ensures After(s, first + rest) == After(t, rest)
    decreases |first|
  {
    hide Do;
    if first == [] {
      assert first + rest == rest;
    } else {
      assert (first + rest)[1..] == first[1..] + rest;
      StepsOn(Do(s, first[0]).value, first[1..], rest, t);
    }
  }

  lemma {:induction false} OnStep(s: State, labels: seq<Label>, rest: seq<Label>, t: State)
    requires s.fill < |s.bufs| && labels != [] && Do(s, labels[0]) == Some(t) && labels[1..] == rest
    ensures After(s, labels) == After(t, rest) && After(t, []) == Some(t)
  {
  }

  // ---- No job is stuck --------------------------------------------------------------------------------

  /** The worker's next step when decoding succeeds. */
  function Next(s: State): Label {
    match s.worker
    case Poll => Claim
    case Claimed => StartDecode
    case Decoding(_) => CheckGen
    case Wanting => WorkerLock
    case SwapLoad => LoadFront
    case SwapFront(_) => StoreFront
    case SwapBack(_) => StoreBack
    case Composing => ComposeDone
    case Unlocking => WorkerUnlock
    case Finishing => Finish
  }

  /** Steps to the end of the job, at most. */
  function Left(w: WorkerPc): nat {
    match w
    case Poll => 9
    case Claimed => 8
    case Decoding(_) => 7
    case Wanting => 6
    case SwapLoad => 5
    case SwapFront(_) => 4
    case SwapBack(_) => 3
    case Composing => 3
    case Unlocking => 2
    case Finishing => 1
  }

  /** The state after n steps of the worker alone. */
  function Worked(s: State, n: nat): Option<State>
    decreases n
  {
    if n == 0 then Some(s)
    else if s.fill < |s.bufs| && Do(s, Next(s)).Some? then Worked(Do(s, Next(s)).value, n - 1)
    else None
  }

  lemma {:induction false} NextOk(s: State)
    requires Inv(s) && s.job != JobIdle && s.lock != ByTick
    ensures
      var r := Do(s, Next(s));
      && r.Some? && Inv(r.value) && r.value.lock != ByTick && r.value.tick == s.tick
      && if s.worker == Finishing then r.value.job == JobIdle
         else r.value.job != JobIdle && Left(r.value.worker) < Left(s.worker)
  {
    JobStep(s, Next(s));
    FrameStep(s, Next(s));
  }

  /** Unless the presenter holds the lock, the worker by itself ends a queued or running job in nine steps at
      most; and the presenter can always let go of the lock. */
  lemma {:induction false} JobFinishes(s: State)
    requires Inv(s) && s.job != JobIdle
    ensures s.lock == ByTick ==> Do(s, PresentUnlock).Some? && Do(s, PresentUnlock).value.lock == Free
    ensures s.lock != ByTick ==>
      exists n: nat :: 1 <= n <= Left(s.worker) && Worked(s, n).Some? && Worked(s, n).value.job == JobIdle
    decreases Left(s.worker)
  {
    hide Do, Inv;
    if s.lock == ByTick {
      LetGo(s);
    } else {
      BufsOk(s);
      NextOk(s);
      var r := Do(s, Next(s)).value;
      if s.worker == Finishing {
        assert Worked(r, 0) == Some(r);
        assert Worked(s, 1) == Some(r);
      } else {
        JobFinishes(r);
        var n: nat :| 1 <= n <= Left(r.worker) && Worked(r, n).Some? && Worked(r, n).value.job == JobIdle;
        assert Worked(s, n + 1) == Worked(r, n);
      }
    }
  }

  /** Decoding can fail at any time; the job then ends in one more step, and the frames are where they were. */
  lemma {:induction false} FailureEnds(s: State)
    requires Inv(s) && s.worker.Decoding?
    ensures s.fill < |s.bufs| && Do(s, DecodeFails).Some?
    ensures
      var t := Do(s, DecodeFails).value;
      t.fill < |t.bufs| && Do(t, Finish).Some? && Do(t, Finish).value.job == JobIdle && Unmoved(s, Do(t, Finish).value)
  {
  }

  /** A presenter that is ready gets the lock after five steps of the worker at most. */
  lemma {:induction false} PresenterGets(s: State)
    requires Inv(s) && s.tick == Ready
    ensures exists n: nat :: n <= 5 && Worked(s, n).Some? && CanPresent(Worked(s, n).value)
    decreases Left(s.worker)
  {
    hide Do, Inv;
    if s.lock == Free {
      FreeLock(s);
      assert Worked(s, 0) == Some(s);
    } else {
      Releases(s);
      var n: nat :| n < Left(s.worker) && Released(s, n);
      FreeLock(Worked(s, n).value);
    }
  }

  /** After n steps of the worker nobody holds the lock. */
  ghost predicate Released(s: State, n: nat) {
    && Worked(s, n).Some?
    && var t := Worked(s, n).value; t.lock == Free && t.tick == Ready && Inv(t)
  }

  predicate CanPresent(s: State) { s.fill < |s.bufs| && Do(s, PresentLock).Some? }

  lemma {:induction false} FreeLock(s: State)
    requires Inv(s) && s.tick == Ready && s.lock == Free
    ensures CanPresent(s)
  {
  }

  /** The worker releases the lock within five steps. */
  lemma {:induction false} Releases(s: State)
    requires Inv(s) && s.tick == Ready && s.lock != Free
    ensures Holding(s.worker) && Left(s.worker) <= 5
    ensures exists n: nat :: n < Left(s.worker) && Released(s, n)
    decreases Left(s.worker)
  {
    hide Do, Inv;
    HeldBy(s);
    NextOk(s);
    BufsOk(s);
    var r := Do(s, Next(s)).value;
    if s.worker == Unlocking {
      Unlocks(s);
      assert Worked(r, 0) == Some(r) && Worked(s, 1) == Some(r);
      assert Released(s, 1);
    } else {
      StillHeld(s);
      Releases(r);
      var n: nat :| n < Left(r.worker) && Released(r, n);
      assert Worked(s, n + 1) == Worked(r, n);
      assert Released(s, n + 1);
    }
  }

  lemma {:induction false} HeldBy(s: State)
    requires Inv(s) && s.tick == Ready && s.lock != Free
    ensures Holding(s.worker) && Left(s.worker) <= 5 && s.lock == ByWorker && s.job != JobIdle && s.worker != Finishing
  {
  }

  lemma {:induction false} Unlocks(s: State)
    requires Inv(s) && s.worker == Unlocking
    ensures s.fill < |s.bufs| && Do(s, Next(s)).Some? && Do(s, Next(s)).value.lock == Free
  {
  }

  lemma {:induction false} StillHeld(s: State)
    requires Inv(s) && Holding(s.worker) && s.worker != Unlocking
    ensures s.fill < |s.bufs| && Do(s, Next(s)).Some? && Do(s, Next(s)).value.lock == s.lock
  {
  }

  lemma {:induction false} LetGo(s: State)
    requires Inv(s) && s.lock == ByTick
    ensures s.fill < |s.bufs| && Do(s, PresentUnlock).Some? && Do(s, PresentUnlock).value.lock == Free
  {
  }

  lemma {:induction false} BufsOk(s: State)
    requires Inv(s)
    ensures s.fill < |s.bufs|
  {
  }
}
