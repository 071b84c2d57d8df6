/** The browser's receiver: parser, bulk path, stalls and the decode job slot. */
module BrowserPump {
  import opened Arith
  import opened Bytes
  import opened Wire

  const CHUNK: nat := 8192
  /** A full frame is skipped when more than this is already waiting behind it. */
  const BACKLOG: nat := 8192
  const CHUNKS_PER_PUMP: nat := 3

  datatype ParseState = PIdle | PSync | PHeader | PImg | PTile | PAud | PBlocked

  datatype JobState = JobIdle | JobQueued | JobRunning
  datatype Job = Job(kind: Kind, size: nat, buf: nat, rect: Rect, gen: nat)

  /** What became of a completed message. */
  datatype Fate = Submitted | Skipped | Dropped | Played | Ended
  /** A completed message, its fate, and how many bytes were already waiting behind it. */
  datatype Entry = Entry(msg: Msg, fate: Fate, waiting: nat)

  function Msgs(log: seq<Entry>): (m: seq<Msg>)
    ensures |m| == |log|
  {
    seq(|log|, i requires 0 <= i < |log| => log[i].msg)
  }

  lemma {:induction false} MsgsPlus(log: seq<Entry>, e: Entry)
    ensures Msgs(log + [e]) == Msgs(log) + [e.msg]
  {
  }

  /** The payloads of the messages that were handed over, in order. */
  function Submissions(log: seq<Entry>): seq<seq<Byte>> {
    if log == [] then []
    else
      var e := log[|log| - 1];
      Submissions(log[..|log| - 1]) + if e.fate.Submitted? then [Payload(e.msg)] else []
  }

  lemma {:induction false} SubmissionsPlus(log: seq<Entry>, e: Entry)
    ensures Submissions(log + [e]) == Submissions(log) + if e.fate.Submitted? then [Payload(e.msg)] else []
    ensures Fated(log + [e]) <==> Fated(log) && FateOk(e)
  {
    assert forall i :: 0 <= i < |log| ==> (log + [e])[i] == log[i];
    assert (log + [e])[..|log + [e]| - 1] == log;
  }

  /** What was handed over has been decoded, but for the job in the slot. */
  predicate Owed(jobs: seq<seq<Byte>>, decoded: seq<seq<Byte>>, slot: JobState, data: seq<Byte>) {
    jobs == decoded + if slot.JobIdle? then [] else [data]
  }

  /** A JPEG the parser hands on: start marker and, for full frames, end marker. */
  predicate Decodable(kind: Kind, data: seq<Byte>) {
    && |data| >= 4 && data[0] == 0xFF && data[1] == 0xD8
    && (kind.ImgKind? ==> data[|data| - 2] == 0xFF && data[|data| - 1] == 0xD9)
  }

  /** Frame ends end a frame, audio is played, and pictures are dropped exactly when their markers are
      wrong; of the others tiles are always handed over, full frames handed over or skipped. */
  predicate FateOk(e: Entry) {
    match e.msg
    case FrameEnd => e.fate.Ended?
    case Aud(_) => e.fate.Played?
    case Tile(_, data) => if Decodable(TileKind, data) then e.fate.Submitted? else e.fate.Dropped?
    case Img(data) => if Decodable(ImgKind, data) then e.fate.Submitted? || e.fate.Skipped? else e.fate.Dropped?
  }

  predicate Fated(log: seq<Entry>) { forall i :: 0 <= i < |log| ==> FateOk(log[i]) }

  /** The skip flag after a log. A full frame is skipped when the one before was not and more than 8 KiB
      are waiting, and only then. None: that rule was broken. */
  function SkipFlag(log: seq<Entry>, flag: bool): Option<bool> {
    if log == [] then Some(flag)
    else
      var before := SkipFlag(log[..|log| - 1], flag);
      var e := log[|log| - 1];
      if before == None then None
      else if e.fate.Skipped? then if before.value || e.waiting <= BACKLOG then None else Some(true)
      else if e.msg.Img? && e.fate.Submitted? then if before.value || e.waiting <= BACKLOG then Some(false) else None
      else before
  }

  lemma {:induction false} SkipFlagPlus(log: seq<Entry>, flag: bool, e: Entry)
    ensures SkipFlag(log + [e], flag) ==
      var before := SkipFlag(log, flag);
      if before == None then None
      else if e.fate.Skipped? then if before.value || e.waiting <= BACKLOG then None else Some(true)
      else if e.msg.Img? && e.fate.Submitted? then if before.value || e.waiting <= BACKLOG then Some(false) else None
      else before
  {
    assert (log + [e])[..|log + [e]| - 1] == log;
  }

  class Receiver {
    var state: ParseState
    const hdrBuf: array<Byte>
    var hdrLen: nat
    var payloadSize: nat
    var payloadOff: nat
    var rect: Rect
    /** Ping-pong payload buffers; the parser fills number `fill`. */
    const jpeg0: array<Byte>
    const jpeg1: array<Byte>
    const mp3: array<Byte>
    var fill: nat
    var blockedKind: Kind
    var skippedLast: bool

    /** The decode job slot. */
    var workerSpawned: bool
    var jobState: JobState
    var job: Job
    var gen: nat

    /** Carried bytes of the last receive, and what the network stack holds. */
    const chunk: array<Byte>
    var chunkLen: nat
    var chunkPos: nat
    var ring: seq<Byte>

    /** Since the last reset: everything received, everything parsed, and every message completed. */
    ghost var stream: seq<Byte>
    ghost var eaten: seq<Byte>
    ghost var log: seq<Entry>
    ghost var base: Auto
    ghost var flag0: bool
    /** How many bytes were waiting when the parser stalled. */
    ghost var backlog: nat
    /** The payload the job slot was given. */
    ghost var jobData: seq<Byte>
    /** The payloads handed over and those decoded since the start, and those handed over before the last reset. */
    ghost var jobs: seq<seq<Byte>>
    ghost var decoded: seq<seq<Byte>>
    ghost var prior: seq<seq<Byte>>

    ghost predicate Shape()
      reads this`fill
    {
      && hdrBuf.Length == HDR_BUF && jpeg0.Length == JPEG_CAP && jpeg1.Length == JPEG_CAP
      && mp3.Length == MP3_CAP
      && hdrBuf != jpeg0 && hdrBuf != jpeg1 && hdrBuf != mp3
      && jpeg0 != jpeg1 && jpeg0 != mp3 && jpeg1 != mp3
      && fill < 2
    }

    predicate ChunkApart() {
      chunk.Length == CHUNK && chunk != hdrBuf && chunk != jpeg0 && chunk != jpeg1 && chunk != mp3
    }

    function Buf(i: nat): array<Byte> { if i == 0 then jpeg0 else jpeg1 }

    /** A parser as the driver starts it, with nothing received yet. */
    constructor (spawned: bool)
      ensures Valid() && stream == [] && log == [] && jobs == [] && workerSpawned == spawned && fresh(chunk)
    {
      hide Submissions, Fated, FateOk, LogJobs, Feed, SkipFlag, Msgs, Decodable, Core;
      state, hdrLen, payloadSize, payloadOff, rect := PIdle, 0, 0, 0, Rect(0, 0, 0, 0);
      fill, blockedKind, skippedLast, workerSpawned := 0, ImgKind, false, spawned;
      jobState, job, gen := JobIdle, Job(ImgKind, 0, 0, Rect(0, 0, 0, 0), 0), 0;
      hdrBuf := new Byte[HDR_BUF](_ => 0);
      jpeg0 := new Byte[JPEG_CAP];
      jpeg1 := new Byte[JPEG_CAP];
      mp3 := new Byte[MP3_CAP];
      chunk := new Byte[CHUNK];
      chunkLen, chunkPos, ring := 0, 0, [];
      stream, eaten, log, flag0, jobData := [], [], [], false, [];
      jobs, decoded, prior := [], [], [];
      new;
      base := Auto(Idle, hdrBuf[..], 0);
      NothingFed(base, flag0);
      LogFresh();
      IdleCore();
    }

    /** The bytes collected so far. */
    ghost function Got(): seq<Byte>
      reads this`state, this`payloadOff, this`fill, jpeg0, jpeg1, mp3
      requires Shape() && payloadOff <= if state.PAud? then MP3_CAP else JPEG_CAP
    {
      if state.PAud? then mp3[..payloadOff] else Buf(fill)[..payloadOff]
    }

    function DataKind(): Kind
      reads this`state
    {
      match state
      case PTile => TileKind
      case PAud => AudKind
      case _ => ImgKind
    }

    ghost predicate StateOk()
      reads this`state, this`hdrLen, this`payloadSize, this`payloadOff, this`rect, this`fill, this`blockedKind,
        hdrBuf, jpeg0, jpeg1, mp3
      requires Shape()
    {
      && hdrBuf[HDR_BUF - 1] == 0 && hdrLen < HDR_BUF
      && match state
         case PIdle => payloadSize == payloadOff == 0
         case PSync => payloadSize == payloadOff == 0
         case PHeader => payloadSize == payloadOff == 0 && hdrLen >= 1 && hdrBuf[0] in [0x49, 0x41, 0x54, 0x46]
         case PBlocked => 1 <= payloadOff == payloadSize <= JPEG_CAP && !blockedKind.AudKind?
           && Decodable(blockedKind, Got())
         case _ => payloadOff < payloadSize <= if state.PAud? then MP3_CAP else JPEG_CAP
    }

    /** The automaton the parser's fields stand for. */
    ghost function View(): (a: Auto)
      reads this`state, this`hdrLen, this`payloadSize, this`payloadOff, this`rect, this`fill, this`blockedKind,
        hdrBuf, jpeg0, jpeg1, mp3
      requires Shape() && StateOk()
      ensures AutoOk(a)
    {
      match state
      case PIdle => Auto(Idle, hdrBuf[..], hdrLen)
      case PSync => Auto(Idle, hdrBuf[..], hdrLen)
      case PBlocked => Auto(Idle, hdrBuf[..], 0)
      case PHeader => Auto(InHeader, hdrBuf[..], hdrLen)
      case _ => Auto(InData(DataKind(), if state.PTile? then rect else Rect(0, 0, 0, 0), payloadSize, Got()),
        hdrBuf[..], hdrLen)
    }

    /** The completed message a stalled parser holds. */
    ghost function Held(): seq<Msg>
      reads this`state, this`hdrLen, this`payloadSize, this`payloadOff, this`rect, this`fill, this`blockedKind,
        hdrBuf, jpeg0, jpeg1, mp3
      requires Shape() && StateOk()
    {
      if state.PBlocked? then [Completed(blockedKind, rect, Got())] else []
    }

    /** The job slot's buffer is not the one being filled, and still holds what was submitted. */
    ghost predicate JobOk()
      reads this`fill, this`workerSpawned, this`jobState, this`job, this`jobData, this`jobs, this`decoded, jpeg0, jpeg1
      requires Shape()
    {
      && Owed(jobs, decoded, jobState, jobData)
      && (!jobState.JobIdle? ==>
        && workerSpawned && job.buf < 2 && job.buf != fill && job.size <= JPEG_CAP
        && Buf(job.buf)[..job.size] == jobData)
    }

    /** The payloads handed over since the last reset are those the log says, and its fates are in order. */
    ghost predicate LogJobs()
      reads this`jobs, this`prior, this`log
    {
      LogFits(log)
    }

    ghost predicate LogFits(l: seq<Entry>)
      reads this`jobs, this`prior
    {
      jobs == prior + Submissions(l) && Fated(l)
    }

    /** Everything parsed so far has become the logged messages, the held one, and the parser state. */
    ghost predicate Core()
      reads this`state, this`hdrLen, this`payloadSize, this`payloadOff, this`rect, this`fill, this`blockedKind,
        this`skippedLast, this`workerSpawned, this`jobState, this`job, this`jobData, this`jobs, this`decoded,
        this`eaten, this`log, this`base, this`flag0, this`prior, this`backlog, hdrBuf, jpeg0, jpeg1, mp3
    {
      && Shape() && StateOk() && JobOk() && LogJobs()
      && AutoOk(base) && base.phase.Idle?
      && Feed(base, eaten) == (View(), Msgs(log) + Held())
      && SkipFlag(log, flag0).Some?
      && (if state.PBlocked? && blockedKind.ImgKind?
          then !skippedLast && (SkipFlag(log, flag0).value || backlog <= BACKLOG)
          else skippedLast == SkipFlag(log, flag0).value)
    }

    /** Nothing received is lost or repeated: it is parsed, carried, or still in the ring. */
    ghost predicate Valid()
      reads this, hdrBuf, jpeg0, jpeg1, mp3, chunk
    {
      && Core() && ChunkApart() && chunkPos <= chunkLen <= CHUNK
      && stream == eaten + chunk[chunkPos..chunkLen] + ring
    }

    /** A payload is complete and its message is not dealt with yet. */
    ghost predicate Complete(kind: Kind, data: seq<Byte>)
      reads this`state, this`hdrLen, this`payloadSize, this`payloadOff, this`rect, this`fill, this`blockedKind,
        this`skippedLast, this`workerSpawned, this`jobState, this`job, this`jobData, this`jobs, this`decoded,
        this`eaten, this`log, this`base, this`flag0, this`prior, hdrBuf, jpeg0, jpeg1, mp3
    {
      && Shape() && JobOk() && LogJobs() && hdrBuf[HDR_BUF - 1] == 0 && hdrLen < HDR_BUF
      && AutoOk(base) && base.phase.Idle?
      && SkipFlag(log, flag0) == Some(skippedLast)
      && 1 <= payloadOff == payloadSize == |data| && payloadSize <= (if kind.AudKind? then MP3_CAP else JPEG_CAP)
      && data == (if kind.AudKind? then mp3 else Buf(fill))[..payloadSize]
      && Feed(base, eaten) == (Auto(Idle, hdrBuf[..], 0), Msgs(log) + [Completed(kind, rect, data)])
    }

    /** br_parse_reset. */
    method ParseReset()
      modifies this`state, this`hdrLen, this`payloadSize, this`payloadOff
      ensures state == PIdle && hdrLen == 0 && payloadSize == 0 && payloadOff == 0
    {
      state, hdrLen, payloadSize, payloadOff := PIdle, 0, 0, 0;
    }

    /** br_parse_int: a decimal number after optional spaces. */
    method ParseInt(i: nat) returns (v: nat, j: nat)
      requires i <= hdrBuf.Length
      ensures i <= j <= hdrBuf.Length && (v, j) == ReadInt(hdrBuf[..], i)
    {
      v, j := 0, i;
      while j < hdrBuf.Length && hdrBuf[j] == SPACE
        invariant i <= j <= hdrBuf.Length
        invariant SkipSpaces(hdrBuf[..], i) == SkipSpaces(hdrBuf[..], j)
      {
        j := j + 1;
      }
      while j < hdrBuf.Length && IsDigit(hdrBuf[j])
        invariant i <= j <= hdrBuf.Length
        invariant ReadInt(hdrBuf[..], i) == ReadDigits(hdrBuf[..], j, v)
      {
        var d: nat := hdrBuf[j];
        v := v * 10 + (d - 0x30);
        j := j + 1;
      }
    }

    /** Hand the payload to the job slot. False: the slot is busy. Without a worker the payload is
        decoded on the spot. */
    method JobSubmit(kind: Kind) returns (ok: bool)
      requires Shape() && JobOk() && payloadSize <= JPEG_CAP
      modifies this`jobState, this`job, this`fill, this`jobData, this`jobs, this`decoded
      ensures Shape() && JobOk()
      ensures jobs == old(jobs) + if ok then [Buf(old(fill))[..payloadSize]] else []
      ensures ok && !workerSpawned ==> decoded == old(decoded) + [Buf(old(fill))[..payloadSize]]
      ensures !ok ==> jobState == old(jobState) && job == old(job) && fill == old(fill) && jobData == old(jobData)
      ensures ok && workerSpawned ==>
        && old(jobState).JobIdle? && jobState.JobQueued? && fill == 1 - old(fill)
        && job == Job(kind, payloadSize, old(fill), rect, gen) && jobData == Buf(old(fill))[..payloadSize]
      ensures ok <==> !(workerSpawned && !old(jobState).JobIdle?)
    {
      if !workerSpawned {
        decoded, jobs := decoded + [Buf(fill)[..payloadSize]], jobs + [Buf(fill)[..payloadSize]];
        return true;
      }
      if jobState != JobIdle {
        return false;
      }
      jobs := jobs + [Buf(fill)[..payloadSize]];
      job := Job(kind, payloadSize, fill, rect, gen);
      jobData := Buf(fill)[..payloadSize];
      jobState := JobQueued;
      fill := 1 - fill;
      return true;
    }

    /** The finished message leaves the parser with the given fate. */
    method Finish(kind: Kind, ghost data: seq<Byte>, ghost fate: Fate, ghost waiting: nat)
      requires Shape() && JobOk() && hdrBuf[HDR_BUF - 1] == 0
      requires LogFits(log + [Entry(Completed(kind, rect, data), fate, waiting)])
      requires AutoOk(base) && base.phase.Idle?
      requires Feed(base, eaten) == (Auto(Idle, hdrBuf[..], 0), Msgs(log) + [Completed(kind, rect, data)])
      requires SkipFlag(log + [Entry(Completed(kind, rect, data), fate, waiting)], flag0) == Some(skippedLast)
      modifies this`state, this`hdrLen, this`payloadSize, this`payloadOff, this`log
      ensures Core() && state == PIdle && log == old(log) + [Entry(Completed(kind, rect, data), fate, waiting)]
    {
      ghost var e := Entry(Completed(kind, rect, data), fate, waiting);
      MsgsPlus(log, e);
      ParseReset();
      log := log + [e];
      assert Msgs(log) + [] == Msgs(log);
    }

    /** The payload has its start marker and, for a full frame, its end marker. */
    method GoodMarkers(kind: Kind) returns (good: bool)
      requires Shape() && payloadSize <= JPEG_CAP
      ensures good <==> Decodable(kind, Buf(fill)[..payloadSize])
    {
      var buf := Buf(fill);
      good := payloadSize >= 4 && buf[0] == 0xFF && buf[1] == 0xD8;
      if good && kind == ImgKind {
        good := buf[payloadSize - 2] == 0xFF && buf[payloadSize - 1] == 0xD9;
      }
    }

    /** br_payload_complete: check, perhaps skip, hand over, or stall. */
    method PayloadComplete(kind: Kind, ghost data: seq<Byte>)
      requires Complete(kind, data) && !kind.AudKind?
      modifies this`state, this`hdrLen, this`payloadSize, this`payloadOff, this`blockedKind, this`backlog,
        this`skippedLast, this`jobState, this`job, this`fill, this`jobData, this`jobs, this`decoded, this`log
      ensures Core()
      ensures state == PIdle || state == PBlocked
      ensures state == PBlocked ==>
        && log == old(log) && Decodable(kind, data) && blockedKind == kind && workerSpawned
        && !jobState.JobIdle? && backlog == |ring|
      ensures state == PIdle ==>
        log == old(log) + [Entry(Completed(kind, rect, data),
          if !Decodable(kind, data) then Dropped
          else if kind.ImgKind? && !old(skippedLast) && |ring| > BACKLOG then Skipped else Submitted, |ring|)]
    {
      hide Owed, Submissions, Fated, FateOk, Feed, SkipFlag, Msgs, Completed;
      ghost var msg := Completed(kind, rect, data);
      CompletedKind(kind, rect, data);
      var good := GoodMarkers(kind);
      if !good {
        SubmissionsPlus(log, Entry(msg, Dropped, |ring|));
        SkipFlagPlus(log, flag0, Entry(msg, Dropped, |ring|));
        Finish(kind, data, Dropped, |ring|);
        return;
      }
      if kind == ImgKind {
        if !skippedLast && |ring| > BACKLOG {
          SubmissionsPlus(log, Entry(msg, Skipped, |ring|));
          SkipFlagPlus(log, flag0, Entry(msg, Skipped, |ring|));
          skippedLast := true;
          Finish(kind, data, Skipped, |ring|);
          return;
        }
      }
      if kind == ImgKind {
        skippedLast := false;
      }
      HandOver(kind, data);
    }

    /** Submit the checked payload, or stall on it. */
    method HandOver(kind: Kind, ghost data: seq<Byte>)
      requires Shape() && JobOk() && LogJobs() && hdrBuf[HDR_BUF - 1] == 0 && hdrLen < HDR_BUF && !kind.AudKind?
      requires AutoOk(base) && base.phase.Idle? && SkipFlag(log, flag0).Some?
      requires if kind.ImgKind? then !skippedLast && (SkipFlag(log, flag0).value || |ring| <= BACKLOG)
        else skippedLast == SkipFlag(log, flag0).value
      requires 1 <= payloadOff == payloadSize == |data| <= JPEG_CAP && data == Buf(fill)[..payloadSize]
        && Decodable(kind, data)
      requires Feed(base, eaten) == (Auto(Idle, hdrBuf[..], 0), Msgs(log) + [Completed(kind, rect, data)])
      modifies this`state, this`hdrLen, this`payloadSize, this`payloadOff, this`blockedKind, this`backlog,
        this`jobState, this`job, this`fill, this`jobData, this`jobs, this`decoded, this`log
      ensures Core()
      ensures state == PIdle || state == PBlocked
      ensures state == PBlocked ==>
        log == old(log) && blockedKind == kind && workerSpawned && !jobState.JobIdle? && backlog == |ring|
      ensures state == PIdle ==> log == old(log) + [Entry(Completed(kind, rect, data), Submitted, |ring|)]
    {
      hide Owed, Submissions, Fated, FateOk, Feed, SkipFlag, Msgs, Completed, Decodable;
      var ok := JobSubmit(kind);
      if !ok {
        Stall(kind, data);
        return;
      }
      CompletedKind(kind, rect, data);
      SubmissionsPlus(log, Entry(Completed(kind, rect, data), Submitted, |ring|));
      SkipFlagPlus(log, flag0, Entry(Completed(kind, rect, data), Submitted, |ring|));
      Finish(kind, data, Submitted, |ring|);
    }

    /** The parser waits with its payload. */
    method Stall(kind: Kind, ghost data: seq<Byte>)
      requires Shape() && JobOk() && LogJobs() && hdrBuf[HDR_BUF - 1] == 0 && hdrLen < HDR_BUF && !kind.AudKind?
      requires AutoOk(base) && base.phase.Idle? && SkipFlag(log, flag0).Some?
      requires if kind.ImgKind? then !skippedLast && (SkipFlag(log, flag0).value || |ring| <= BACKLOG)
        else skippedLast == SkipFlag(log, flag0).value
      requires 1 <= payloadOff == payloadSize == |data| <= JPEG_CAP && data == Buf(fill)[..payloadSize]
        && Decodable(kind, data)
      requires Feed(base, eaten) == (Auto(Idle, hdrBuf[..], 0), Msgs(log) + [Completed(kind, rect, data)])
      modifies this`state, this`blockedKind, this`backlog
      ensures Core() && state == PBlocked && blockedKind == kind && backlog == |ring|
    {
      hide LogJobs, Owed, Submissions, Fated, FateOk, Feed, SkipFlag, Msgs, Completed, Decodable;
      blockedKind, backlog := kind, |ring|;
      state := PBlocked;
    }

    /** br_process_aud_frame, then ready for the next message. */
    method AudioComplete(ghost data: seq<Byte>)
      requires Complete(AudKind, data)
      modifies this`state, this`hdrLen, this`payloadSize, this`payloadOff, this`log
      ensures Core() && state == PIdle && log == old(log) + [Entry(Aud(data), Played, |ring|)]
    {
      hide Owed, Submissions, Fated, Feed, SkipFlag, Msgs;
      SubmissionsPlus(log, Entry(Aud(data), Played, |ring|));
      SkipFlagPlus(log, flag0, Entry(Aud(data), Played, |ring|));
      Finish(AudKind, data, Played, |ring|);
    }

    /** Retry a stalled hand-off. */
    method Retry() returns (ok: bool)
      requires Core() && state == PBlocked
      modifies this`state, this`hdrLen, this`payloadSize, this`payloadOff, this`jobState, this`job, this`fill,
        this`jobData, this`jobs, this`decoded, this`log
      ensures Core()
      ensures ok <==> !(old(workerSpawned) && !old(jobState).JobIdle?)
      ensures !ok ==> state == PBlocked && log == old(log) && jobState == old(jobState)
      ensures ok ==> state == PIdle && log == old(log) + [Entry(old(Held())[0], Submitted, backlog)]
    {
      hide Owed, Submissions, Fated, FateOk, Feed, SkipFlag, Msgs, Completed;
      ghost var data := Got();
      ok := JobSubmit(blockedKind);
      if ok {
        CompletedKind(blockedKind, rect, data);
        SubmissionsPlus(log, Entry(Completed(blockedKind, rect, data), Submitted, backlog));
        SkipFlagPlus(log, flag0, Entry(Completed(blockedKind, rect, data), Submitted, backlog));
        Finish(blockedKind, data, Submitted, backlog);
      }
    }

    /** br_enter_sync: drop bytes until a message may start. */
    method EnterSync()
      modifies this`state, this`hdrLen, this`payloadSize, this`payloadOff
      ensures state == PSync && hdrLen == 0 && payloadSize == 0 && payloadOff == 0
    {
      state, hdrLen, payloadSize, payloadOff := PSync, 0, 0, 0;
    }

    /** br_parse_byte. */
    method ParseByte(b: Byte)
      requires Core() && state != PBlocked
      modifies this`state, this`hdrLen, this`payloadSize, this`payloadOff, this`rect, this`blockedKind, this`backlog,
        this`skippedLast, this`jobState, this`job, this`fill, this`jobData, this`jobs, this`decoded, this`log,
        this`eaten, hdrBuf, jpeg0, jpeg1, mp3
      ensures state == PBlocked ==> workerSpawned && !jobState.JobIdle?
      ensures Core() && eaten == old(eaten) + [b] && old(log) <= log
    {
      FeedPlus(base, eaten, b);
      assert Msgs(log) + [] == Msgs(log);
      match state {
        case PIdle => StartByte(b);
        case PSync => StartByte(b);
        case PHeader => HeaderByte(b);
        case PImg => DataByte(b);
        case PTile => DataByte(b);
        case PAud => DataByte(b);
      }
    }

    /** Between messages: only the four message letters start a header. */
    method StartByte(b: Byte)
      requires Core() && (state == PIdle || state == PSync)
      requires Feed(base, eaten + [b]) == (Advance(View(), b).0, Msgs(log) + [])
      requires Advance(View(), b).1 == None
      modifies this`state, this`hdrLen, this`eaten, hdrBuf
      ensures Core() && eaten == old(eaten) + [b] && log == old(log)
    {
      hide LogJobs, Owed, Submissions, Fated, FateOk, Feed, SkipFlag, Msgs;
      eaten := eaten + [b];
      if b == 0x49 || b == 0x41 || b == 0x54 || b == 0x46 {
        hdrBuf[0] := b;
        hdrLen := 1;
        state := PHeader;
      }
    }

    /** Inside a header line. */
    method HeaderByte(b: Byte)
      requires Core() && state == PHeader
      requires
        var (c, m) := Advance(View(), b);
        Feed(base, eaten + [b]) == (c, Msgs(log) + if m.Some? then [m.value] else [])
      modifies this`state, this`hdrLen, this`payloadSize, this`payloadOff, this`rect, this`log, this`eaten, hdrBuf
      ensures state != PBlocked
      ensures Core() && eaten == old(eaten) + [b] && old(log) <= log
    {
      hide LogJobs, Owed, Submissions, Fated, FateOk, Feed, SkipFlag, Msgs, Dispatch;
      eaten := eaten + [b];
      if b == NEWLINE {
        hdrBuf[hdrLen] := 0;
        HeaderLine();
      } else if hdrLen < HDR_BUF - 1 {
        hdrBuf[hdrLen] := b;
        hdrLen := hdrLen + 1;
      } else {
        EnterSync();
      }
    }

    /** A complete header line: frame end, or the start of a payload, or nonsense. */
    method HeaderLine()
      requires Shape() && JobOk() && LogJobs() && hdrBuf[HDR_BUF - 1] == 0 && 1 <= hdrLen < HDR_BUF
        && payloadSize == payloadOff == 0
      requires AutoOk(base) && base.phase.Idle? && SkipFlag(log, flag0) == Some(skippedLast)
      requires
        var (phase, end) := Dispatch(hdrBuf[..], hdrLen);
        Feed(base, eaten) == (Auto(phase, hdrBuf[..], if phase.InData? then hdrLen else 0), Msgs(log) + if end
          then [FrameEnd] else [])
      modifies this`state, this`hdrLen, this`payloadSize, this`payloadOff, this`rect, this`log
      ensures state != PBlocked
      ensures Core() && old(log) <= log
    {
      hide LogJobs, Owed, Submissions, Fated, FateOk, Feed, SkipFlag, Msgs, ReadInt, Dispatch;
      assert Msgs(log) + [] == Msgs(log);
      var letter := hdrBuf[0];
      if letter == 0x46 {
        FrameEndDispatch(hdrBuf[..], hdrLen);
        FrameEndLine();
      } else if letter == 0x54 {
        if hdrLen >= 4 && hdrBuf[1] == 0x49 && hdrBuf[2] == 0x4C {
          TileLine();
        } else {
          OddDispatch(hdrBuf[..], hdrLen);
          EnterSync();
        }
      } else if letter == 0x49 {
        SizeLine(ImgKind);
      } else if letter == 0x41 {
        SizeLine(AudKind);
      } else {
        OddDispatch(hdrBuf[..], hdrLen);
        EnterSync();
      }
    }

    /** The size of a full frame or an audio chunk. */
    method SizeLine(kind: Kind)
      requires Shape() && JobOk() && LogJobs() && hdrBuf[HDR_BUF - 1] == 0 && 1 <= hdrLen < HDR_BUF
        && payloadSize == payloadOff == 0
      requires AutoOk(base) && base.phase.Idle? && SkipFlag(log, flag0) == Some(skippedLast)
      requires (kind == ImgKind && hdrBuf[0] == 0x49) || (kind == AudKind && hdrBuf[0] == 0x41)
      requires
        var (phase, end) := Dispatch(hdrBuf[..], hdrLen);
        Feed(base, eaten) == (Auto(phase, hdrBuf[..], if phase.InData? then hdrLen else 0), Msgs(log) + if end
          then [FrameEnd] else [])
      modifies this`state, this`hdrLen, this`payloadSize, this`payloadOff
      ensures state != PBlocked
      ensures Core()
    {
      hide LogJobs, Owed, Submissions, Fated, FateOk, Feed, SkipFlag, Msgs, ReadInt, Dispatch;
      var sz, p := ParseInt(4);
      SizeDispatch(hdrBuf[..], hdrLen, kind, sz, p);
      StartPayload(kind, sz, sz == 0 || sz > (if kind == AudKind then MP3_CAP else JPEG_CAP));
    }

    method FrameEndLine()
      requires Shape() && JobOk() && LogJobs() && hdrBuf[HDR_BUF - 1] == 0 && payloadSize == payloadOff == 0
      requires AutoOk(base) && base.phase.Idle? && SkipFlag(log, flag0) == Some(skippedLast)
      requires Feed(base, eaten) == (Auto(Idle, hdrBuf[..], 0), Msgs(log) + [FrameEnd])
      modifies this`state, this`hdrLen, this`log
      ensures Core() && log == old(log) + [Entry(FrameEnd, Ended, |ring|)]
    {
      hide Owed, Submissions, Fated, Feed, SkipFlag, Msgs;
      SubmissionsPlus(log, Entry(FrameEnd, Ended, |ring|));
      SkipFlagPlus(log, flag0, Entry(FrameEnd, Ended, |ring|));
      MsgsPlus(log, Entry(FrameEnd, Ended, |ring|));
      state, hdrLen := PIdle, 0;
      log := log + [Entry(FrameEnd, Ended, |ring|)];
      assert Msgs(log) + [] == Msgs(log);
    }

    /** The five numbers of a tile header. */
    method TileLine()
      requires Shape() && JobOk() && LogJobs() && hdrBuf[HDR_BUF - 1] == 0 && 4 <= hdrLen < HDR_BUF
        && payloadSize == payloadOff == 0
      requires AutoOk(base) && base.phase.Idle? && SkipFlag(log, flag0) == Some(skippedLast)
      requires hdrBuf[0] == 0x54 && hdrBuf[1] == 0x49 && hdrBuf[2] == 0x4C
      requires
        var (phase, end) := Dispatch(hdrBuf[..], hdrLen);
        Feed(base, eaten) == (Auto(phase, hdrBuf[..], if phase.InData? then hdrLen else 0), Msgs(log) + if end
          then [FrameEnd] else [])
      modifies this`state, this`hdrLen, this`payloadSize, this`payloadOff, this`rect
      ensures state != PBlocked
      ensures Core()
    {
      hide LogJobs, Owed, Submissions, Fated, FateOk, Feed, SkipFlag, Msgs, ReadInt, Dispatch;
      ghost var hdr := hdrBuf[..];
      var x, p1 := ParseInt(if hdrBuf[3] == 0x45 then 5 else 4);
      var y, p2 := ParseInt(p1);
      var w, p3 := ParseInt(p2);
      var h, p4 := ParseInt(p3);
      var sz, p5 := ParseInt(p4);
      TileDispatch(hdr, hdrLen, x, y, w, h, sz, p1, p2, p3, p4, p5);
      rect := Rect(x, y, w, h);
      StartPayload(TileKind, sz, sz == 0 || sz > JPEG_CAP || w < 1 || h < 1 || w > 256 || h > 256);
    }

    /** Begin a payload, or give the line up. */
    method StartPayload(kind: Kind, sz: nat, bad: bool)
      requires Shape() && JobOk() && LogJobs() && hdrBuf[HDR_BUF - 1] == 0 && 1 <= hdrLen < HDR_BUF
        && payloadSize == payloadOff == 0
      requires AutoOk(base) && base.phase.Idle? && SkipFlag(log, flag0) == Some(skippedLast)
      requires !bad ==> 1 <= sz <= if kind.AudKind? then MP3_CAP else JPEG_CAP
      requires Feed(base, eaten) ==
        (if bad then Auto(Idle, hdrBuf[..], 0)
         else Auto(InData(kind, if kind.TileKind? then rect else Rect(0, 0, 0, 0), sz, []), hdrBuf[..], hdrLen),
           Msgs(log) + [])
      modifies this`state, this`hdrLen, this`payloadSize, this`payloadOff
      ensures state != PBlocked
      ensures Core()
    {
      hide LogJobs, Owed, Submissions, Fated, FateOk, Feed, SkipFlag, Msgs;
      if bad {
        EnterSync();
      } else {
        payloadSize, payloadOff := sz, 0;
        state := if kind.AudKind? then PAud else if kind.TileKind? then PTile else PImg;
      }
    }

    /** One payload byte. */
    method DataByte(b: Byte)
      requires Core() && (state == PImg || state == PTile || state == PAud)
      requires
        var (c, m) := Advance(View(), b);
        Feed(base, eaten + [b]) == (c, Msgs(log) + if m.Some? then [m.value] else [])
      modifies this`state, this`hdrLen, this`payloadSize, this`payloadOff, this`blockedKind, this`backlog,
        this`skippedLast, this`jobState, this`job, this`fill, this`jobData, this`jobs, this`decoded, this`log,
        this`eaten, jpeg0, jpeg1, mp3
      ensures state == PBlocked ==> workerSpawned && !jobState.JobIdle?
      ensures Core() && eaten == old(eaten) + [b] && old(log) <= log
    {
      hide LogJobs, Owed, Submissions, Fated, FateOk, Feed, SkipFlag, Msgs, Decodable;
      ghost var got := Got();
      eaten := eaten + [b];
      StoreByte(b);
      if payloadOff >= payloadSize {
        PayloadDone(got + [b]);
      }
    }

    /** The byte goes into the buffer of the current state. */
    method StoreByte(b: Byte)
      requires Shape() && JobOk() && payloadOff < if state.PAud? then MP3_CAP else JPEG_CAP
      modifies this`payloadOff, jpeg0, jpeg1, mp3
      ensures payloadOff == old(payloadOff) + 1 && Got() == old(Got()) + [b] && JobOk()
    {
      if state == PAud {
        mp3[payloadOff] := b;
      } else {
        var dst := Buf(fill);
        dst[payloadOff] := b;
      }
      payloadOff := payloadOff + 1;
    }

    /** The payload in the current state is complete. */
    method PayloadDone(ghost data: seq<Byte>)
      requires (state == PImg || state == PTile || state == PAud) && Complete(DataKind(), data)
      modifies this`state, this`hdrLen, this`payloadSize, this`payloadOff, this`blockedKind, this`backlog,
        this`skippedLast, this`jobState, this`job, this`fill, this`jobData, this`jobs, this`decoded, this`log
      ensures state == PBlocked ==> workerSpawned && !jobState.JobIdle?
      ensures Core() && old(log) <= log
    {
      match state {
        case PImg => PayloadComplete(ImgKind, data);
        case PTile => PayloadComplete(TileKind, data);
        case PAud => AudioComplete(data);
      }
    }

    /** br_bulk_consume: copy a run of payload bytes at once. What it does is what feeding the same
        bytes one at a time does. */
    method BulkConsume(at: nat, n: nat) returns (take: nat)
      requires Core() && ChunkApart() && state != PBlocked && at + n <= CHUNK
      modifies this`state, this`hdrLen, this`payloadSize, this`payloadOff, this`blockedKind, this`backlog,
        this`skippedLast, this`jobState, this`job, this`fill, this`jobData, this`jobs, this`decoded, this`log,
        this`eaten, jpeg0, jpeg1, mp3
      ensures state == PBlocked ==> workerSpawned && !jobState.JobIdle?
      ensures Core() && take <= n && eaten == old(eaten) + chunk[at..at + take] && old(log) <= log
      ensures take == 0 ==> state == old(state)
    {
      hide LogJobs, Owed, Submissions, Fated, FateOk, Feed, SkipFlag, Msgs;
      assert chunk[at..at] == [];
      if n == 0 || payloadSize <= payloadOff {
        return 0;
      }
      take := if n < payloadSize - payloadOff then n else payloadSize - payloadOff;
      ghost var data := Got() + chunk[at..at + take];
      CopyRun(at, take);
      if payloadOff >= payloadSize {
        PayloadDone(data);
      }
    }

    /** A run of payload bytes goes to the buffer. */
    method CopyRun(at: nat, take: nat)
      requires Core() && ChunkApart() && state != PBlocked && at + take <= CHUNK && 0 < take <= payloadSize - payloadOff
      modifies this`payloadOff, this`eaten, jpeg0, jpeg1, mp3
      ensures eaten == old(eaten) + chunk[at..at + take]
      ensures payloadOff < payloadSize ==> Core()
      ensures payloadOff >= payloadSize ==>
        (state == PImg || state == PTile || state == PAud) && Complete(DataKind(), old(Got()) + chunk[at..at + take])
    {
      hide LogJobs, Owed, Submissions, Fated, FateOk, Feed, SkipFlag, Msgs;
      ghost var src, a := chunk[at..at + take], View();
      FeedConcat(base, eaten, src);
      FeedRun(a, src);
      assert Msgs(log) + [] == Msgs(log);
      eaten := eaten + src;
      CopyIn(at, take);
    }

    /** The copy itself, into the buffer of the current state. */
    method CopyIn(at: nat, take: nat)
      requires Shape() && JobOk() && ChunkApart() && at + take <= CHUNK
      requires payloadOff + take <= if state.PAud? then MP3_CAP else JPEG_CAP
      modifies this`payloadOff, jpeg0, jpeg1, mp3
      ensures payloadOff == old(payloadOff) + take
      ensures Got() == old(Got()) + chunk[at..at + take]
      ensures JobOk()
    {
      if state == PAud {
        forall i | 0 <= i < take {
          mp3[payloadOff + i] := chunk[at + i];
        }
      } else {
        var dst := Buf(fill);
        forall i | 0 <= i < take {
          dst[payloadOff + i] := chunk[at + i];
        }
      }
      payloadOff := payloadOff + take;
    }

    // ---- Network, pump, worker, reset ---------------------------------------------------------

    /** The network stack receives bytes. */
    method Arrive(bytes: seq<Byte>)
      requires Valid()
      modifies this`ring, this`stream
      ensures Valid() && stream == old(stream) + bytes
    {
      hide Core;
      ring := ring + bytes;
      stream := stream + bytes;
    }

    /** tcp_recv: the waiting bytes, at most a chunk. */
    method Recv() returns (n: nat)
      requires chunk.Length == CHUNK
      modifies this`ring, chunk
      ensures n == (if |old(ring)| <= CHUNK then |old(ring)| else CHUNK)
      ensures chunk[..n] == old(ring)[..n] && ring == old(ring)[n..]
    {
      n := if |ring| < CHUNK then |ring| else CHUNK;
      ghost var before := ring;
      forall i | 0 <= i < n {
        chunk[i] := ring[i];
      }
      assert chunk[..n] == before[..n];
      ring := ring[n..];
    }

    /** br_tcp_pump: retry a stalled hand-off, then parse up to three chunks, stopping early when time
        is up or the parser stalls. What is left of a chunk is carried to the next pump. */
    method Pump()
      requires Valid()
      modifies this`state, this`hdrLen, this`payloadSize, this`payloadOff, this`rect, this`blockedKind, this`backlog,
        this`skippedLast, this`jobState, this`job, this`fill, this`jobData, this`jobs, this`decoded, this`log,
        this`eaten, this`chunkLen, this`chunkPos, this`ring, hdrBuf, jpeg0, jpeg1, mp3, chunk
      ensures Valid() && old(log) <= log
      ensures state == PBlocked ==> workerSpawned && !jobState.JobIdle?
      ensures old(state == PBlocked && workerSpawned && !jobState.JobIdle?) ==>
        && state == PBlocked && log == old(log) && ring == old(ring)
        && chunkPos == old(chunkPos) && chunkLen == old(chunkLen)
      ensures state != PBlocked ==> chunkPos == chunkLen
      ensures state != PBlocked && old(chunkPos == chunkLen) ==>
        |ring| <= Left(|old(ring)|)
      ensures |old(ring)| - 3 * CHUNK <= |ring| <= |old(ring)|
    {
      hide Core;
      if state == PBlocked {
        var ok := Retry();
        if !ok {
          return;
        }
      }
      PumpChunks();
    }

    /** The chunks of one pump. */
    method PumpChunks()
      requires Valid() && state != PBlocked
      modifies this`state, this`hdrLen, this`payloadSize, this`payloadOff, this`rect, this`blockedKind, this`backlog,
        this`skippedLast, this`jobState, this`job, this`fill, this`jobData, this`jobs, this`decoded, this`log,
        this`eaten, this`chunkLen, this`chunkPos, this`ring, hdrBuf, jpeg0, jpeg1, mp3, chunk
      ensures Valid() && old(log) <= log
      ensures state == PBlocked ==> workerSpawned && !jobState.JobIdle?
      ensures state != PBlocked ==> chunkPos == chunkLen
      ensures state != PBlocked && old(chunkPos == chunkLen) ==>
        |ring| <= Left(|old(ring)|)
      ensures |old(ring)| - 3 * CHUNK <= |ring| <= |old(ring)|
    {
      hide Core;
      var chunksLeft := CHUNKS_PER_PUMP;
      while true
        invariant Valid() && state != PBlocked && old(log) <= log && 0 <= chunksLeft <= 3
        invariant |old(ring)| - (3 - chunksLeft) * CHUNK <= |ring| <= |old(ring)|
        invariant old(chunkPos == chunkLen) ==> if chunksLeft == 3 then chunkPos == chunkLen && ring == old(ring)
          else |ring| <= Left(|old(ring)|)
        decreases chunksLeft, chunkLen - chunkPos
      {
        if chunkPos >= chunkLen {
          if chunksLeft <= 0 {
            break;
          }
          chunksLeft := chunksLeft - 1;
          var got := Refill();
          if !got {
            break;
          }
        }
        var stalled := DrainChunk();
        if stalled {
          return;
        }
        var late := *;
        if late {
          break;
        }
      }
    }

    /** Fetch the next chunk. */
    method Refill() returns (got: bool)
      requires Valid() && chunkPos >= chunkLen
      modifies this`ring, this`chunkLen, this`chunkPos, chunk
      ensures Valid() && (if got then chunkPos < chunkLen else ring == [] && chunkPos >= chunkLen)
      ensures |ring| == Left(|old(ring)|)
    {
      hide Core;
      var n := Recv();
      got := n > 0;
      if got {
        assert chunk[..n] + ring == old(ring);
        chunkLen, chunkPos := n, 0;
      }
    }

    /** Parse the current chunk to its end, or until the parser stalls. */
    method DrainChunk() returns (stalled: bool)
      requires Valid() && state != PBlocked
      modifies this`state, this`hdrLen, this`payloadSize, this`payloadOff, this`rect, this`blockedKind, this`backlog,
        this`skippedLast, this`jobState, this`job, this`fill, this`jobData, this`jobs, this`decoded, this`log,
        this`eaten, this`chunkPos, hdrBuf, jpeg0, jpeg1, mp3
      ensures Valid() && old(log) <= log
      ensures stalled <==> state == PBlocked
      ensures state == PBlocked ==> workerSpawned && !jobState.JobIdle?
      ensures !stalled ==> chunkPos == chunkLen
    {
      while chunkPos < chunkLen
        invariant Valid() && state != PBlocked && old(log) <= log && chunkPos <= chunkLen
      {
        Consume();
        if state == PBlocked {
          return true;
        }
      }
      return false;
    }

    /** A bulk copy where possible, one byte otherwise. */
    method Consume()
      requires Valid() && state != PBlocked && chunkPos < chunkLen
      modifies this`state, this`hdrLen, this`payloadSize, this`payloadOff, this`rect, this`blockedKind, this`backlog,
        this`skippedLast, this`jobState, this`job, this`fill, this`jobData, this`jobs, this`decoded, this`log,
        this`eaten, this`chunkPos, hdrBuf, jpeg0, jpeg1, mp3
      ensures state == PBlocked ==> workerSpawned && !jobState.JobIdle?
      ensures Valid() && old(log) <= log && old(chunkPos) < chunkPos <= chunkLen
    {
      hide Core, StateOk, Shape, JobOk, View, LogJobs, Owed, Submissions, Fated, FateOk;
      ghost var c, from, e0 := chunk[..], chunkPos, eaten;
      Moved(e0, c, from, from, chunkLen, ring);
      var taken := BulkConsume(chunkPos, chunkLen - chunkPos);
      assert chunk[..] == c;
      if taken > 0 {
        Moved(e0, c, from, from + taken, chunkLen, ring);
        chunkPos := chunkPos + taken;
        assert chunk[chunkPos..chunkLen] == c[chunkPos..chunkLen];
      } else {
        assert eaten == e0;
        ConsumeByte();
      }
    }

    /** One byte of the chunk through the parser. */
    method ConsumeByte()
      requires Valid() && state != PBlocked && chunkPos < chunkLen
      modifies this`state, this`hdrLen, this`payloadSize, this`payloadOff, this`rect, this`blockedKind, this`backlog,
        this`skippedLast, this`jobState, this`job, this`fill, this`jobData, this`jobs, this`decoded, this`log,
        this`eaten, this`chunkPos, hdrBuf, jpeg0, jpeg1, mp3
      ensures state == PBlocked ==> workerSpawned && !jobState.JobIdle?
      ensures Valid() && old(log) <= log && chunkPos == old(chunkPos) + 1
    {
      hide Core, StateOk, Shape, JobOk, View, LogJobs, Owed, Submissions, Fated, FateOk;
      ghost var c := chunk[..];
      Moved(eaten, c, chunkPos, chunkPos + 1, chunkLen, ring);
      ParseByte(chunk[chunkPos]);
      chunkPos := chunkPos + 1;
      assert chunk[..] == c;
      assert chunk[chunkPos..chunkLen] == c[chunkPos..chunkLen];
    }

    /** br_local_reset_stream: a fresh parser; carried bytes are dropped. */
    method LocalReset()
      requires Valid()
      modifies this`state, this`hdrLen, this`payloadSize, this`payloadOff, this`gen, this`chunkLen, this`chunkPos,
        this`stream, this`eaten, this`log, this`base, this`flag0, this`prior
      ensures Valid() && eaten == [] && log == [] && stream == ring && state == PIdle && gen == old(gen) + 1
    {
      hide Core;
      gen := gen + 1;
      chunkLen, chunkPos := 0, 0;
      FreshCore();
      stream := ring;
      assert chunk[0..0] == [];
    }

    lemma {:induction false} LogFresh()
      requires log == [] && prior == jobs
      ensures LogJobs()
    {
    }

    method FreshCore()
      requires Core()
      modifies this`state, this`hdrLen, this`payloadSize, this`payloadOff, this`eaten, this`log, this`base, this`flag0,
        this`prior
      ensures Core() && eaten == [] && log == [] && state == PIdle
    {
      hide LogJobs, Owed, Submissions, Fated, FateOk, Feed, SkipFlag, Msgs, JobOk, Core;
      CoreParts();
      ParseReset();
      eaten, log, prior := [], [], jobs;
      base, flag0 := Auto(Idle, hdrBuf[..], 0), skippedLast;
      NothingFed(base, flag0);
      LogFresh();
      IdleCore();
    }

    lemma {:induction false} CoreParts()
      requires Core()
      ensures Shape() && JobOk() && hdrBuf[HDR_BUF - 1] == 0
    {
      hide LogJobs, Owed, Submissions, Fated, FateOk, Feed, SkipFlag, Msgs, JobOk;
    }

    /** A parser between messages. */
    lemma {:induction false} IdleCore()
      requires Shape() && JobOk() && LogJobs() && state == PIdle && hdrBuf[HDR_BUF - 1] == 0
        && hdrLen == payloadSize == payloadOff == 0
      requires AutoOk(base) && base.phase.Idle? && SkipFlag(log, flag0) == Some(skippedLast)
      requires Feed(base, eaten) == (Auto(Idle, hdrBuf[..], 0), Msgs(log))
      ensures Core()
    {
      hide LogJobs, Owed, Submissions, Fated, FateOk, Feed, SkipFlag, Msgs, JobOk;
      assert Msgs(log) + [] == Msgs(log);
    }

    /** The worker picks the queued job up. */
    method WorkerTake()
      requires Valid()
      modifies this`jobState
      ensures Valid() && (old(jobState).JobQueued? ==> jobState.JobRunning?)
    {
      hide LogJobs, Submissions, Fated, FateOk, Feed, SkipFlag, Msgs;
      if jobState == JobQueued {
        jobState := JobRunning;
      }
    }

    /** The worker finishes its job: what it reads is exactly what was submitted. */
    method WorkerDone() returns (data: seq<Byte>)
      requires Valid() && jobState == JobRunning
      modifies this`jobState, this`decoded
      ensures Valid() && jobState == JobIdle && data == old(jobData) && decoded == old(decoded) + [data]
    {
      hide Submissions, Fated, FateOk, Feed, SkipFlag, Msgs;
      data := Buf(job.buf)[..job.size];
      jobState := JobIdle;
      decoded := decoded + [data];
    }
  }

  /** Everything the proxy printed comes out, in order: what has been completed so far is a prefix of
      the messages sent, and all of them once everything sent has been parsed. */
  lemma {:induction false} Delivered(r: Receiver, msgs: seq<Msg>, rest: seq<Byte>)
    requires r.Valid() && r.stream + rest == EncodeAll(msgs) && forall m <- msgs :: Sendable(m)
    ensures Msgs(r.log) + r.Held() <= msgs
    ensures rest == [] && r.ring == [] && r.chunkPos == r.chunkLen ==> Msgs(r.log) + r.Held() == msgs
  {
    hide Owed, Submissions, Fated, FateOk, Feed, SkipFlag, Msgs, Sendable, EncodeAll, Receiver.Core, Receiver.View,
      Receiver.Held, Receiver.StateOk, Receiver.JobOk;
    CoreFeed(r);
    var more := r.chunk[r.chunkPos..r.chunkLen] + r.ring + rest;
    assert r.stream + rest == r.eaten + more;
    Prefix(r.base, r.eaten, more, msgs);
  }

  /** Bytes move from the chunk to what has been parsed. */
  lemma {:induction false} Moved(e: seq<Byte>, c: seq<Byte>, i: nat, j: nat, k: nat, r: seq<Byte>)
    requires i <= j <= k <= |c|
    ensures e + c[i..k] + r == (e + c[i..j]) + c[j..k] + r
    ensures j == i + 1 ==> c[i..j] == [c[i]]
    ensures c[i..i] == [] && e + [] == e
  {
    assert c[i..k] == c[i..j] + c[j..k];
  }

  lemma {:induction false} CoreFeed(r: Receiver)
    requires r.Core()
    ensures r.Shape() && r.StateOk() && AutoOk(r.base) && r.base.phase.Idle?
    ensures Feed(r.base, r.eaten).1 == Msgs(r.log) + r.Held()
  {
    hide Owed, Submissions, Fated, FateOk, Feed, SkipFlag, Msgs;
  }

  /** The first part of a printed stream gives the first messages. */
  lemma {:induction false} Prefix(a: Auto, s: seq<Byte>, more: seq<Byte>, msgs: seq<Msg>)
    requires AutoOk(a) && a.phase.Idle? && s + more == EncodeAll(msgs) && forall m <- msgs :: Sendable(m)
    ensures Feed(a, s).1 <= msgs && (more == [] ==> Feed(a, s).1 == msgs)
  {
    hide Feed, Sendable, AutoOk, EncodeAll;
    WireRoundTrip(a, msgs);
    FeedConcat(a, s, more);
    if more == [] {
      assert s + more == s;
    }
  }

  lemma {:induction false} NothingFed(a: Auto, flag: bool)
    requires AutoOk(a)
    ensures Feed(a, []) == (a, []) && Msgs([]) == [] && SkipFlag([], flag) == Some(flag)
  {
  }

  /** What can happen between two moments: bytes arrive, the tick pumps, the worker starts or ends. */
  datatype Step = Net(bytes: seq<Byte>) | Tick | Take | Done

  function SentBytes(steps: seq<Step>): seq<Byte> {
    if steps == [] then []
    else SentBytes(steps[..|steps| - 1]) + if steps[|steps| - 1].Net? then steps[|steps| - 1].bytes else []
  }

  /** What a chunk leaves in the ring. */
  function Left(waiting: nat): nat { if waiting <= CHUNK then 0 else waiting - CHUNK }

  /** One step. */
  method Act(r: Receiver, step: Step)
    requires r.Valid()
    modifies r, r.hdrBuf, r.jpeg0, r.jpeg1, r.mp3, r.chunk
    ensures r.Valid() && r.stream == old(r.stream) + (if step.Net? then step.bytes else []) && r.prior == old(r.prior)
    ensures step.Tick? && r.state != PBlocked ==>
      r.chunkPos == r.chunkLen && (old(r.chunkPos == r.chunkLen) ==> |r.ring| <= Left(|old(r.ring)|))
    ensures step.Take? && old(r.jobState).JobQueued? ==> r.jobState.JobRunning?
    ensures step.Done? && old(r.jobState).JobRunning? ==>
      r.jobState.JobIdle? && r.decoded == old(r.decoded) + [old(r.jobData)]
  {
    hide Receiver.Core;
    match step {
      case Net(bytes) => r.Arrive(bytes);
      case Tick => r.Pump();
      case Take => r.WorkerTake();
      case Done =>
        if r.jobState == JobRunning {
          var _ := r.WorkerDone();
        }
    }
  }

  /** However the bytes are cut into arrivals, whatever the pumps' budgets, and wherever the worker
      makes the parser stall, the messages come out as they were sent. */
  method Session(r: Receiver, steps: seq<Step>, ghost msgs: seq<Msg>, ghost rest: seq<Byte>)
    requires r.Valid() && r.stream == [] && r.jobs == []
    requires SentBytes(steps) + rest == EncodeAll(msgs) && forall m <- msgs :: Sendable(m)
    modifies r, r.hdrBuf, r.jpeg0, r.jpeg1, r.mp3, r.chunk
    ensures r.Valid() && r.stream == SentBytes(steps) && Msgs(r.log) + r.Held() <= msgs
    ensures rest == [] && r.ring == [] && r.chunkPos == r.chunkLen ==> Msgs(r.log) + r.Held() == msgs
    ensures forall i, j :: 0 <= i < j < |r.log| && r.log[i].fate.Skipped? && r.log[j].fate.Skipped? ==>
      exists k :: i < k < j && r.log[k].msg.Img? && r.log[k].fate.Submitted?
    ensures Submissions(r.log) == r.decoded + if r.jobState.JobIdle? then [] else [r.jobData]
    ensures forall e <- r.log :: FateOk(e) && (e.fate.Skipped? ==> e.waiting > BACKLOG)
  {
    hide Receiver.Core, Receiver.Held, FateOk, Fated, Msgs, Submissions, Fated, FateOk, EncodeAll, Sendable;
    StartedEmpty(r);
    var i := 0;
    while i < |steps|
      invariant 0 <= i <= |steps| && r.Valid() && r.stream == SentBytes(steps[..i]) && r.prior == []
    {
      assert steps[..i + 1][..i] == steps[..i];
      Act(r, steps[i]);
      i := i + 1;
    }
    assert steps[..i] == steps;
    Delivered(r, msgs, rest);
    SkipsApart(r);
    Decoded(r);
    Fates(r);
  }

  lemma {:induction false} StartedEmpty(r: Receiver)
    requires r.Core() && r.jobs == []
    ensures r.prior == []
  {
    hide Feed, SkipFlag, Msgs, Submissions, Fated, FateOk;
  }

  /** The payloads decoded so far, and the one in the job slot, are those handed over, in order. */
  lemma {:induction false} Decoded(r: Receiver)
    requires r.Core()
    ensures r.prior + Submissions(r.log) == r.decoded + if r.jobState.JobIdle? then [] else [r.jobData]
  {
    hide Feed, SkipFlag, Msgs, Submissions, Fated, FateOk;
  }

  lemma {:induction false} Fates(r: Receiver)
    requires r.Core()
    ensures forall e <- r.log :: FateOk(e) && (e.fate.Skipped? ==> e.waiting > BACKLOG)
  {
    hide Feed, SkipFlag, Msgs, Submissions, FateOk;
    forall i | 0 <= i < |r.log|
      ensures r.log[i].fate.Skipped? ==> r.log[i].waiting > BACKLOG
    {
      SkipExact(r.log, r.flag0, i);
    }
  }

  /** Whether a full frame with good markers is skipped follows from the frames before it and from what is
      waiting behind it. */
  lemma {:induction false} SkipExact(log: seq<Entry>, flag: bool, i: nat)
    requires SkipFlag(log, flag).Some? && i < |log|
    ensures SkipFlag(log[..i], flag).Some?
    ensures log[i].fate.Skipped? ==> log[i].waiting > BACKLOG && !SkipFlag(log[..i], flag).value
    ensures log[i].msg.Img? && log[i].fate.Submitted? ==> log[i].waiting <= BACKLOG || SkipFlag(log[..i], flag).value
  {
    var shorter := log[..|log| - 1];
    if i < |log| - 1 {
      SkipExact(shorter, flag, i);
      assert shorter[..i] == log[..i];
    }
  }

  lemma {:induction false} SkipsApart(r: Receiver)
    requires r.Core()
    ensures r.Shape() && r.StateOk()
    ensures forall i, j :: 0 <= i < j < |r.log| && r.log[i].fate.Skipped? && r.log[j].fate.Skipped? ==>
      exists k :: i < k < j && r.log[k].msg.Img? && r.log[k].fate.Submitted?
  {
    forall i, j | 0 <= i < j < |r.log| && r.log[i].fate.Skipped? && r.log[j].fate.Skipped?
      ensures exists k :: i < k < j && r.log[k].msg.Img? && r.log[k].fate.Submitted?
    {
      NoDoubleSkip(r.log, r.flag0, i, j);
    }
  }

  /** No two full frames in a row are skipped. */
  lemma {:induction false} NoDoubleSkip(log: seq<Entry>, flag: bool, i: nat, j: nat)
    requires SkipFlag(log, flag).Some? && i < j < |log| && log[i].fate.Skipped? && log[j].fate.Skipped?
    ensures exists k :: i < k < j && log[k].msg.Img? && log[k].fate.Submitted?
  {
    if j < |log| - 1 {
      NoDoubleSkip(log[..|log| - 1], flag, i, j);
      var k :| i < k < j && log[..|log| - 1][k].msg.Img? && log[..|log| - 1][k].fate.Submitted?;
      assert log[k].msg.Img? && log[k].fate.Submitted?;
    } else {
      var before := log[..j];
      assert SkipFlag(before, flag) == Some(false);
      FlagCleared(before, flag, i);
      var k :| i < k < |before| && before[k].msg.Img? && before[k].fate.Submitted?;
      assert log[k].msg.Img? && log[k].fate.Submitted?;
    }
  }

  /** The flag set by a skip is only cleared by a submitted full frame. */
  lemma {:induction false} FlagCleared(log: seq<Entry>, flag: bool, i: nat)
    requires SkipFlag(log, flag) == Some(false) && i < |log| && log[i].fate.Skipped?
    ensures exists k :: i < k < |log| && log[k].msg.Img? && log[k].fate.Submitted?
  {
    var last := |log| - 1;
    if log[last].msg.Img? && log[last].fate.Submitted? && i < last {
    } else {
      var shorter := log[..last];
      FlagCleared(shorter, flag, i);
      var k :| i < k < |shorter| && shorter[k].msg.Img? && shorter[k].fate.Submitted?;
      assert log[k].msg.Img? && log[k].fate.Submitted?;
    }
  }

  /** A run of payload bytes that does not go beyond the payload. */
  lemma {:induction false} FeedRun(a: Auto, s: seq<Byte>)
    requires AutoOk(a) && a.phase.InData? && s != [] && |a.phase.got| + |s| <= a.phase.size
    ensures Feed(a, s) ==
      if |a.phase.got| + |s| == a.phase.size
      then (Auto(Idle, a.hdr, 0), [Completed(a.phase.kind, a.phase.rect, a.phase.got + s)])
      else (a.(phase := a.phase.(got := a.phase.got + s)), [])
    decreases |s|
  {
    if |s| == 1 {
      FeedOne(a, s[0]);
      assert s == [s[0]];
    } else {
      var b := Advance(a, s[0]).0;
      var got, rest := a.phase.got, s[1..];
      assert b == a.(phase := a.phase.(got := got + [s[0]]));
      assert got + [s[0]] + rest == got + s;
      FeedRun(b, rest);
      assert [] + Feed(b, rest).1 == Feed(b, rest).1;
    }
  }

  lemma {:induction false} FrameEndDispatch(hdr: seq<Byte>, len: nat)
    requires |hdr| == HDR_BUF && 1 <= len < HDR_BUF && hdr[0] == 0x46
    ensures Dispatch(hdr, len) == (Idle, true)
  {
  }

  lemma {:induction false} OddDispatch(hdr: seq<Byte>, len: nat)
    requires |hdr| == HDR_BUF && 1 <= len < HDR_BUF && hdr[0] != 0x46 && hdr[0] != 0x49 && hdr[0] != 0x41
    requires hdr[0] == 0x54 ==> len < 4 || hdr[1] != 0x49 || hdr[2] != 0x4C
    ensures Dispatch(hdr, len) == (Idle, false)
  {
  }

  lemma {:induction false} SizeDispatch(hdr: seq<Byte>, len: nat, kind: Kind, sz: nat, p: nat)
    requires |hdr| == HDR_BUF && 1 <= len < HDR_BUF && ReadInt(hdr, 4) == (sz, p)
    requires (kind == ImgKind && hdr[0] == 0x49) || (kind == AudKind && hdr[0] == 0x41)
    ensures Dispatch(hdr, len) ==
      if sz == 0 || sz > (if kind == AudKind then MP3_CAP else JPEG_CAP) then (Idle, false)
      else (InData(kind, Rect(0, 0, 0, 0), sz, []), false)
  {
    hide ReadInt;
  }

  lemma {:induction false} TileDispatch(hdr: seq<Byte>, len: nat, x: nat, y: nat, w: nat, h: nat, sz: nat, p1: nat,
      p2: nat, p3: nat, p4: nat, p5: nat)
    requires |hdr| == HDR_BUF && 4 <= len < HDR_BUF && hdr[0] == 0x54 && hdr[1] == 0x49 && hdr[2] == 0x4C
    requires p1 <= HDR_BUF && p2 <= HDR_BUF && p3 <= HDR_BUF && p4 <= HDR_BUF
    requires ReadInt(hdr, if hdr[3] == 0x45 then 5 else 4) == (x, p1) && ReadInt(hdr, p1) == (y, p2)
    requires ReadInt(hdr, p2) == (w, p3) && ReadInt(hdr, p3) == (h, p4) && ReadInt(hdr, p4) == (sz, p5)
    ensures Dispatch(hdr, len) ==
      if sz == 0 || sz > JPEG_CAP || w < 1 || h < 1 || w > 256 || h > 256 then (Idle, false)
      else (InData(TileKind, Rect(x, y, w, h), sz, []), false)
  {
    hide ReadInt;
  }

  lemma {:induction false} FeedPlus(a: Auto, s: seq<Byte>, b: Byte)
    requires AutoOk(a)
    ensures
      var (c, ms) := Feed(a, s);
      var (d, m) := Advance(c, b);
      Feed(a, s + [b]) == (d, ms + if m.Some? then [m.value] else [])
  {
    hide Advance, AutoOk;
    FeedConcat(a, s, [b]);
    FeedOne(Feed(a, s).0, b);
  }

  lemma {:induction false} CompletedKind(kind: Kind, rect: Rect, data: seq<Byte>)
    ensures (Completed(kind, rect, data).Img? <==> kind.ImgKind?) && Payload(Completed(kind, rect, data)) == data
    ensures forall fate, waiting :: FateOk(Entry(Completed(kind, rect, data), fate, waiting)) <==>
      if kind.AudKind? then fate.Played?
      else if !Decodable(kind, data) then fate.Dropped?
      else fate.Submitted? || (kind.ImgKind? && fate.Skipped?)
  {
  }
}
