/**
 One file carried through one shared segment by a proxy handler and a cache worker,
 as two programs whose steps interleave in any order. Copies into and out of the
 shared buffer go byte by byte.
 */
module Transfer {
  import opened Options

  type Octet = bv8

  const CHUNK: nat := 3499
  const LOCAL: nat := 3500
  const SHARED: nat := 4000

  /** Where the handler is inside the segment's use; Finished says what it answered. */
  datatype HandlerPC =
    | WaitSegment | ReadLength | Loop | WaitReader | CopyOut(j: nat) | PostWriter | SendChunk | Finished

  /** Where the worker is; Waiting until it has taken the request. */
  datatype WorkerPC =
    | Waiting | WriteLength | PostSegment | Test | ReadFile | Clear(j: nat) | CopyIn(j: nat) | PostReader | Advance
    | WaitWriter | Stopped

  datatype Transfer = Transfer(
    file: Option<seq<Octet>>,   // what the cache holds under the requested path
    semSegment: nat, semReader: nat, semWriter: nat, fileLength: int, buffer: seq<Octet>,  // the shm_object
    handler: HandlerPC, length: int, sent: seq<Octet>, data: seq<Octet>, handlerRounds: nat,
    worker: WorkerPC, transferred: nat, local: seq<Octet>, workerRounds: nat)

  function Content(t: Transfer): seq<Octet> {
    if t.file.Some? then t.file.value else []
  }

  function Zeroed(n: nat): (s: seq<Octet>)
    ensures |s| == n
    ensures forall i :: 0 <= i < n ==> s[i] == 0
  {
    seq(n, _ => 0)
  }

  function Min(a: int, b: int): int {
    if a < b then a else b
  }

  /** The number of bytes of the chunk that starts at `offset`. */
  function ChunkLength(n: nat, offset: nat): (k: nat)
    requires offset <= n
  {
    Min(CHUNK, n - offset)
  }

  /** The chunk that starts at `offset`, padded with zeros to the size of a buffer. */
  function Padded(file: seq<Octet>, offset: nat): (s: seq<Octet>)
    requires offset <= |file|
    ensures |s| == LOCAL
  {
    var k := ChunkLength(|file|, offset);
    file[offset..offset + k] + Zeroed(LOCAL - k)
  }

  /** shm_create: the length is set to -1 and the three semaphores to 0; the buffer keeps its bytes. */
  function Created(file: Option<seq<Octet>>, buffer: seq<Octet>): Transfer {
    Transfer(file, 0, 0, 0, -1, buffer, WaitSegment, -1, [], Zeroed(LOCAL), 0, Waiting, 0, Zeroed(LOCAL), 0)
  }

  // ---------------------------------------------------------------- the handler, handle_with_cache.c

  predicate HandlerEnabled(t: Transfer) {
    match t.handler
    case WaitSegment => t.semSegment > 0
    case WaitReader => t.semReader > 0
    case Finished => false
    case _ => true
  }

  predicate Sized(t: Transfer) {
    |t.buffer| == SHARED && |t.data| == LOCAL && |t.local| == LOCAL && t.transferred <= |Content(t)|
    && (t.handler.CopyOut? ==> t.handler.j <= CHUNK)
    && (t.worker.Clear? ==> t.worker.j <= LOCAL) && (t.worker.CopyIn? ==> t.worker.j <= CHUNK)
  }

  function HandlerNext(t: Transfer): Transfer
    requires Sized(t) && HandlerEnabled(t)
  {
    match t.handler
    case WaitSegment => t.(semSegment := t.semSegment - 1, handler := ReadLength)
    case ReadLength =>
      if t.fileLength == 0 then t.(length := 0, handler := Finished)
      else t.(length := t.fileLength, handler := Loop)
    case Loop => t.(handler := if |t.sent| < t.length then WaitReader else Finished)
    case WaitReader =>
      t.(semReader := t.semReader - 1, data := Zeroed(LOCAL), handler := CopyOut(0),
         handlerRounds := t.handlerRounds + 1)
    case CopyOut(j) =>
      if j < CHUNK then t.(data := t.data[j := t.buffer[j]], handler := CopyOut(j + 1))
      else t.(handler := PostWriter)
    case PostWriter => t.(semWriter := t.semWriter + 1, handler := SendChunk)
    case SendChunk =>
      var k := t.length - |t.sent|;
      t.(sent := t.sent + (if 0 <= k < CHUNK then t.data[..k] else t.data[..CHUNK]), handler := Loop)
    case Finished => t
  }

  // ---------------------------------------------------------------- the worker, simplecached.c

  predicate WorkerEnabled(t: Transfer) {
    match t.worker
    case WaitWriter => t.semWriter > 0
    case Waiting => false
    case Stopped => false
    case _ => true
  }

  function WorkerNext(t: Transfer): Transfer
    requires Sized(t) && WorkerEnabled(t)
  {
    match t.worker
    case WriteLength => t.(fileLength := |Content(t)|, worker := PostSegment)
    case PostSegment =>
      t.(semSegment := t.semSegment + 1, worker := if t.file.None? then Stopped else Test)
    case Test => t.(worker := if t.transferred < |Content(t)| then ReadFile else Stopped)
    case ReadFile =>
      t.(local := Padded(Content(t), t.transferred), worker := Clear(0), workerRounds := t.workerRounds + 1)
    case Clear(j) =>
      if j < LOCAL then t.(buffer := t.buffer[j := 0], worker := Clear(j + 1))
      else t.(worker := CopyIn(0))
    case CopyIn(j) =>
      if j < CHUNK then t.(buffer := t.buffer[j := t.local[j]], worker := CopyIn(j + 1))
      else t.(worker := PostReader)
    case PostReader => t.(semReader := t.semReader + 1, worker := Advance)
    case Advance =>
      t.(transferred := t.transferred + ChunkLength(|Content(t)|, t.transferred), local := Zeroed(LOCAL),
         worker := WaitWriter)
    case WaitWriter => t.(semWriter := t.semWriter - 1, worker := Test)
    case Waiting => t
    case Stopped => t
  }

  // ---------------------------------------------------------------- the invariant

  predicate InBuffer(t: Transfer) { t.handler.CopyOut? || t.handler.PostWriter? }

  predicate WorkerInBuffer(t: Transfer) { t.worker.Clear? || t.worker.CopyIn? }

  predicate Awaiting(t: Transfer) { t.worker.Advance? || t.worker.WaitWriter? }

  predicate LengthPosted(t: Transfer) {
    !(t.worker.Waiting? || t.worker.WriteLength? || t.worker.PostSegment?)
  }

  function Flag(b: bool): nat { if b then 1 else 0 }

  /** Bytes the handler has given back to the worker: sent, or copied out and about to be sent. */
  function Acknowledged(t: Transfer): int {
    |t.sent| + if t.handler.SendChunk? then Min(CHUNK, |Content(t)| - |t.sent|) else 0
  }

  /** Bytes the worker has offered: all before its offset, and the chunk at its offset once posted. */
  function Offered(t: Transfer): int {
    t.transferred + if t.worker.Advance? then Min(CHUNK, |Content(t)| - t.transferred) else 0
  }

  predicate SegmentHandshake(t: Transfer) {
    && t.semSegment == Flag(LengthPosted(t) && t.handler.WaitSegment?)
    && (!LengthPosted(t) ==> t.handler.WaitSegment? && t.transferred == 0)
    && (t.handler.WaitSegment? || t.handler.ReadLength? ==> t.sent == [] && t.handlerRounds == 0)
    && (!(t.worker.Waiting? || t.worker.WriteLength?) ==> t.fileLength == |Content(t)|)
    && (!(t.handler.WaitSegment? || t.handler.ReadLength?) ==> t.length == |Content(t)|)
  }

  /** A chunk is either in nobody's hands, offered, being copied out, or given back: one token says which. */
  predicate ChunkHandshake(t: Transfer) {
    && t.semReader + t.semWriter + Flag(InBuffer(t)) == Flag(Awaiting(t))
    && 0 <= Acknowledged(t) <= |Content(t)|
    && Offered(t) == Acknowledged(t) + if t.semReader == 1 || InBuffer(t)
      then ChunkLength(|Content(t)|, Acknowledged(t)) else 0
  }

  predicate Offsets(t: Transfer) {
    var n := |Content(t)|;
    && |t.sent| <= n && t.transferred <= n
    && (t.worker.ReadFile? || WorkerInBuffer(t) || t.worker.PostReader? || t.worker.Advance? ==> t.transferred < n)
    && (t.handler.WaitReader? || InBuffer(t) || t.handler.SendChunk? ==> |t.sent| < n)
    && (t.semReader == 1 ==> Acknowledged(t) < n)
    && (t.worker.Stopped? ==> t.transferred == n)
    && (t.handler.Finished? ==> |t.sent| == n)
  }

  predicate Reading(t: Transfer) { InBuffer(t) || t.handler.SendChunk? }

  predicate Writing(t: Transfer) { WorkerInBuffer(t) || t.worker.PostReader? || t.worker.Advance? }

  /** How often each loop body has been entered, against how far its side has come. */
  predicate Rounds(t: Transfer) {
    var n := |Content(t)|;
    && |t.sent| == Min(n, CHUNK * (t.handlerRounds - Flag(Reading(t))))
    && (Reading(t) ==> t.handlerRounds > 0)
    && (t.handlerRounds > 0 ==> CHUNK * (t.handlerRounds - 1) < n)
    && t.transferred == Min(n, CHUNK * (t.workerRounds - Flag(Writing(t))))
    && (Writing(t) ==> t.workerRounds > 0)
    && (t.workerRounds > 0 ==> CHUNK * (t.workerRounds - 1) < n)
  }

  /** What the worker holds and has copied in so far. */
  predicate WorkerData(t: Transfer)
    requires Sized(t)
  {
    && (WorkerInBuffer(t) || t.worker.PostReader? ==> t.local == Padded(Content(t), t.transferred))
    && (t.worker.CopyIn? ==> t.buffer[..t.worker.j] == t.local[..t.worker.j])
    && (t.worker.PostReader? ==> t.buffer[..CHUNK] == Padded(Content(t), t.transferred)[..CHUNK])
  }

  /** What lies in the buffer while a chunk is offered, and what the handler has copied out and sent. */
  predicate HandlerData(t: Transfer)
    requires Sized(t)
  {
    var f := Content(t);
    && t.sent <= f
    && (t.semReader == 1 || InBuffer(t) ==>
        0 <= Acknowledged(t) <= |f| && t.buffer[..CHUNK] == Padded(f, Acknowledged(t))[..CHUNK])
    && (t.handler.CopyOut? ==> t.data[..t.handler.j] == t.buffer[..t.handler.j])
    && (t.handler.PostWriter? || t.handler.SendChunk? ==> t.data[..CHUNK] == Padded(f, |t.sent|)[..CHUNK])
  }

  predicate Inv(t: Transfer) {
    Sized(t) && SegmentHandshake(t) && ChunkHandshake(t) && Offsets(t) && Rounds(t) && WorkerData(t) && HandlerData(t)
  }

  // ---------------------------------------------------------------- every step keeps it

  lemma {:induction false} CreatedInv(file: Option<seq<Octet>>, buffer: seq<Octet>)
    requires |buffer| == SHARED
    ensures Inv(Created(file, buffer))
  {
  }

  lemma {:induction false} HandlerKeepsSegment(t: Transfer)
    requires Inv(t) && HandlerEnabled(t)
    ensures Sized(HandlerNext(t)) && SegmentHandshake(HandlerNext(t))
  {
  }

  lemma {:induction false} HandlerKeepsChunk(t: Transfer)
    requires Inv(t) && HandlerEnabled(t)
    ensures ChunkHandshake(HandlerNext(t))
  {
  }

  lemma {:induction false} HandlerKeepsOffsets(t: Transfer)
    requires Inv(t) && HandlerEnabled(t)
    ensures Offsets(HandlerNext(t))
  {
  }

  lemma {:induction false} HandlerKeepsRounds(t: Transfer)
    requires Inv(t) && HandlerEnabled(t)
    ensures Rounds(HandlerNext(t))
  {
  }

  lemma {:induction false} WorkerKeepsSegment(t: Transfer)
    requires Inv(t) && WorkerEnabled(t)
    ensures Sized(WorkerNext(t)) && SegmentHandshake(WorkerNext(t))
  {
  }

  lemma {:induction false} WorkerKeepsChunk(t: Transfer)
    requires Inv(t) && WorkerEnabled(t)
    ensures ChunkHandshake(WorkerNext(t))
  {
  }

  lemma {:induction false} WorkerKeepsOffsets(t: Transfer)
    requires Inv(t) && WorkerEnabled(t)
    ensures Offsets(WorkerNext(t))
  {
  }

  lemma {:induction false} WorkerKeepsRounds(t: Transfer)
    requires Inv(t) && WorkerEnabled(t)
    ensures Rounds(WorkerNext(t))
  {
  }

  lemma {:induction false} HandlerKeepsWorkerData(t: Transfer)
    requires Inv(t) && HandlerEnabled(t)
    ensures Sized(HandlerNext(t)) && WorkerData(HandlerNext(t))
  {
  }

  lemma {:induction false} CopyOutKeepsData(t: Transfer)
    requires Inv(t) && t.handler.CopyOut?
    ensures Sized(HandlerNext(t)) && HandlerData(HandlerNext(t))
  {
    var j, u := t.handler.j, HandlerNext(t);
    if j < CHUNK {
      assert u.data[..j] == t.data[..j];
      assert u.data[..j + 1] == u.data[..j] + [t.buffer[j]] == t.buffer[..j + 1];
    }
  }

  lemma {:induction false} SendKeepsData(t: Transfer)
    requires Inv(t) && t.handler.SendChunk?
    ensures Sized(HandlerNext(t)) && HandlerData(HandlerNext(t))
  {
    var f, n, k := Content(t), |t.sent|, ChunkLength(|Content(t)|, |t.sent|);
    assert t.data[..k] == t.data[..CHUNK][..k] == Padded(f, n)[..CHUNK][..k] == f[n..n + k];
    assert f[..n] + f[n..n + k] == f[..n + k];
    assert HandlerNext(t).sent == f[..n + k];
  }

  lemma {:induction false} HandlerKeepsHandlerData(t: Transfer)
    requires Inv(t) && HandlerEnabled(t)
    ensures Sized(HandlerNext(t)) && HandlerData(HandlerNext(t))
  {
    if t.handler.CopyOut? {
      CopyOutKeepsData(t);
    } else if t.handler.SendChunk? {
      SendKeepsData(t);
    }
  }

  lemma {:induction false} CopyInKeepsData(t: Transfer)
    requires Inv(t) && t.worker.CopyIn?
    ensures Sized(WorkerNext(t)) && WorkerData(WorkerNext(t))
  {
    var j, u := t.worker.j, WorkerNext(t);
    if j < CHUNK {
      assert u.buffer[..j] == t.buffer[..j];
      assert u.buffer[..j + 1] == u.buffer[..j] + [t.local[j]] == t.local[..j + 1];
    }
  }

  lemma {:induction false} WorkerKeepsWorkerData(t: Transfer)
    requires Inv(t) && WorkerEnabled(t)
    ensures Sized(WorkerNext(t)) && WorkerData(WorkerNext(t))
  {
    if t.worker.CopyIn? {
      CopyInKeepsData(t);
    }
  }

  /** Only a worker whose chunk is in nobody else's hands writes to the buffer. */
  lemma {:induction false} WorkerAlone(t: Transfer)
    requires Inv(t) && WorkerInBuffer(t)
    ensures t.semReader == 0 && !InBuffer(t)
  {
  }

  lemma {:induction false} WorkerKeepsHandlerData(t: Transfer)
    requires Inv(t) && WorkerEnabled(t)
    ensures Sized(WorkerNext(t)) && HandlerData(WorkerNext(t))
  {
    var u := WorkerNext(t);
    assert Acknowledged(u) == Acknowledged(t);
    if WorkerInBuffer(t) {
      WorkerAlone(t);
    } else if t.worker.PostReader? {
      assert Acknowledged(t) == t.transferred;
    } else {
      assert u.buffer == t.buffer;
    }
  }

  lemma {:induction false} HandlerStepKeepsInv(t: Transfer)
    requires Inv(t) && HandlerEnabled(t)
    ensures Inv(HandlerNext(t))
  {
    HandlerKeepsSegment(t);
    HandlerKeepsChunk(t);
    HandlerKeepsOffsets(t);
    HandlerKeepsRounds(t);
    HandlerKeepsWorkerData(t);
    HandlerKeepsHandlerData(t);
  }

  lemma {:induction false} WorkerStepKeepsInv(t: Transfer)
    requires Inv(t) && WorkerEnabled(t)
    ensures Inv(WorkerNext(t))
  {
    WorkerKeepsSegment(t);
    WorkerKeepsChunk(t);
    WorkerKeepsOffsets(t);
    WorkerKeepsRounds(t);
    WorkerKeepsWorkerData(t);
    WorkerKeepsHandlerData(t);
  }

  // ---------------------------------------------------------------- what it means

  /** The two sides are never in the shared buffer together. */
  lemma {:induction false} BufferExclusive(t: Transfer)
    requires Inv(t)
    ensures !(InBuffer(t) && WorkerInBuffer(t))
  {
  }

  /** While a side is in the buffer, every chunk before the one there has gone over exactly once. */
  lemma {:induction false} ChunksInOrder(t: Transfer)
    requires Inv(t)
    ensures WorkerInBuffer(t) ==> Acknowledged(t) == t.transferred && t.semReader == t.semWriter == 0
    ensures InBuffer(t) ==>
            t.buffer[..CHUNK] == Padded(Content(t), |t.sent|)[..CHUNK] && t.semReader == t.semWriter == 0
    ensures t.sent <= Content(t)
  {
  }

  /** A handler that has finished has sent the whole file, and one that found nothing sent nothing. */
  lemma {:induction false} FinishedDelivers(t: Transfer)
    requires Inv(t) && t.handler.Finished?
    ensures t.sent == Content(t) && t.length == |t.sent|
    ensures t.length == 0 <==> t.file.None? || t.file.value == []
  {
  }

  /** Each loop body has run once per chunk when its side has finished. */
  lemma {:induction false} LoopsRunOncePerChunk(t: Transfer)
    requires Inv(t)
    ensures t.handler.Finished? ==> t.handlerRounds == (|Content(t)| + 3498) / 3499
    ensures t.worker.Stopped? ==> t.workerRounds == (|Content(t)| + 3498) / 3499
  {
  }

  /** Unless the request still waits for a worker, some side can move until both have finished. */
  lemma {:induction false} NeverStuck(t: Transfer)
    requires Inv(t) && !t.worker.Waiting?
    ensures HandlerEnabled(t) || WorkerEnabled(t) || (t.handler.Finished? && t.worker.Stopped?)
  {
  }

  /** A worker left behind by a finished handler can always go on. */
  lemma {:induction false} WorkerFinishesAlone(t: Transfer)
    requires Inv(t) && t.handler.Finished?
    ensures WorkerEnabled(t) || t.worker.Stopped?
  {
  }

  // ---------------------------------------------------------------- termination

  function HandlerRank(t: Transfer): nat {
    match t.handler
    case WaitSegment => 3506
    case ReadLength => 3505
    case Loop => 3504
    case WaitReader => 3503
    case CopyOut(j) => if j <= CHUNK then 3502 - j else 0
    case PostWriter => 2
    case SendChunk => 1
    case Finished => 0
  }

  function WorkerRank(t: Transfer): nat {
    match t.worker
    case Waiting => 7012
    case WriteLength => 7011
    case PostSegment => 7010
    case WaitWriter => 7009
    case Test => 7008
    case ReadFile => 7007
    case Clear(j) => if j <= LOCAL then 7006 - j else 0
    case CopyIn(j) => if j <= CHUNK then 3503 - j else 0
    case PostReader => 3
    case Advance => 2
    case Stopped => 0
  }

  /** Bytes still to go on both sides, weighted so that a chunk outweighs any program counter. */
  function Measure(t: Transfer): nat
    requires |t.sent| <= |Content(t)| && t.transferred <= |Content(t)|
  {
    4000 * (|Content(t)| - |t.sent|) + HandlerRank(t) + 8000 * (|Content(t)| - t.transferred) + WorkerRank(t)
  }

  lemma {:induction false} HandlerStepDecreases(t: Transfer)
    requires Inv(t) && HandlerEnabled(t)
    ensures var u := HandlerNext(t);
            Content(u) == Content(t) && u.transferred == t.transferred && |t.sent| <= |u.sent| <= |Content(t)|
            && Measure(u) < Measure(t)
  {
    HandlerKeepsOffsets(t);
    var u := HandlerNext(t);
    assert |u.sent| > |t.sent| || HandlerRank(u) < HandlerRank(t);
  }

  lemma {:induction false} WorkerRankFalls(t: Transfer)
    requires Sized(t) && WorkerEnabled(t) && (t.worker.Advance? ==> t.transferred < |Content(t)|)
    ensures var u := WorkerNext(t);
            Content(u) == Content(t) && u.sent == t.sent && u.handler == t.handler && u.transferred <= |Content(t)|
            && if t.worker.Advance? then u.transferred > t.transferred && WorkerRank(u) == 7009
               else u.transferred == t.transferred && WorkerRank(u) < WorkerRank(t)
  {
  }

  lemma {:induction false} WorkerStepDecreases(t: Transfer)
    requires Inv(t) && WorkerEnabled(t)
    ensures var u := WorkerNext(t);
            Content(u) == Content(t) && u.sent == t.sent && t.transferred <= u.transferred <= |Content(t)|
            && Measure(u) < Measure(t)
  {
    WorkerRankFalls(t);
  }

  // ---------------------------------------------------------------- setting a segment up again

  /** What shm_create does to a segment that is already there; neither side's own variables change. */
  function Reset(t: Transfer): Transfer {
    t.(semSegment := 0, semReader := 0, semWriter := 0, fileLength := -1)
  }

  /** At most n steps of the worker by itself. */
  function WorkerByItself(t: Transfer, n: nat): Transfer
    decreases n
  {
    if n == 0 || !Sized(t) || !WorkerEnabled(t) then t else WorkerByItself(WorkerNext(t), n - 1)
  }

  /** When its handler has finished, a worker has its last token still to take or nothing more to do. */
  lemma {:induction false} WorkerAfterHandler(t: Transfer)
    requires Inv(t) && t.handler.Finished?
    ensures t.semWriter == 1 <==> t.worker.Advance? || t.worker.WaitWriter?
    ensures t.semWriter == 0 <==> t.worker.Test? || t.worker.Stopped?
    ensures t.semWriter == 0 ==> t.transferred == |Content(t)|
  {
  }

  lemma {:induction false} WaitsForever(t: Transfer, n: nat)
    requires t.semWriter == 0 && (t.worker.WaitWriter? || t.worker.Advance?)
    ensures !WorkerByItself(t, n).worker.Stopped?
  {
    if n > 0 && Sized(t) && WorkerEnabled(t) {
      assert !WorkerEnabled(WorkerNext(t));
    }
  }

  /**
   A segment can be set up again without harm to the worker of its last use exactly when that
   worker has taken its last token: shm_create does not look.
   */
  lemma {:induction false} ResetSparesWorkerExactly(t: Transfer)
    requires Inv(t) && t.handler.Finished?
    ensures (exists n :: WorkerByItself(Reset(t), n).worker.Stopped?) <==> t.semWriter == 0
  {
    var u := Reset(t);
    WorkerAfterHandler(t);
    if t.semWriter == 0 {
      assert t.worker.Test? ==> WorkerNext(u).worker.Stopped?;
      assert WorkerByItself(u, if t.worker.Test? then 1 else 0).worker.Stopped?;
    } else {
      forall n ensures !WorkerByItself(u, n).worker.Stopped? {
        WaitsForever(u, n);
      }
    }
  }

  // ---------------------------------------------------------------- and how the harm comes about

  datatype Side = Handler | Worker

  predicate CanRun(t: Transfer, run: seq<Side>)
    decreases |run|
  {
    run == [] ||
    (Sized(t) && if run[0].Handler? then HandlerEnabled(t) && CanRun(HandlerNext(t), run[1..])
                 else WorkerEnabled(t) && CanRun(WorkerNext(t), run[1..]))
  }

  function Ran(t: Transfer, run: seq<Side>): Transfer
    requires CanRun(t, run)
    decreases |run|
  {
    if run == [] then t
    else if run[0].Handler? then Ran(HandlerNext(t), run[1..])
    else Ran(WorkerNext(t), run[1..])
  }

  /** The worker has moved only while the handler could not, so it stands right behind its last post. */
  predicate HandlerAhead(t: Transfer) {
    t.semReader == 1 || Reading(t) || (t.handler.Loop? && t.sent != []) || t.handler.Finished? ==> t.worker.Advance?
  }

  lemma {:induction false} AheadStep(t: Transfer) returns (side: Side)
    requires Inv(t) && HandlerAhead(t) && Content(t) != [] && !t.worker.Waiting? && !t.handler.Finished?
    ensures if side.Handler? then HandlerEnabled(t) else WorkerEnabled(t)
    ensures var u := if side.Handler? then HandlerNext(t) else WorkerNext(t);
            && HandlerAhead(u) && Content(u) == Content(t) && !u.worker.Waiting?
  {
    NeverStuck(t);
    side := if HandlerEnabled(t) then Handler else Worker;
  }

  /** Letting the handler go whenever it can, it finishes while the worker still has to take its last token. */
  lemma {:induction false} HandlerFirst(t: Transfer) returns (run: seq<Side>)
    requires Inv(t) && HandlerAhead(t) && Content(t) != [] && !t.worker.Waiting?
    ensures CanRun(t, run)
    ensures Inv(Ran(t, run)) && Ran(t, run).handler.Finished? && Ran(t, run).worker.Advance?
    decreases Measure(t)
  {
    if t.handler.Finished? {
      run := [];
    } else {
      var side := AheadStep(t);
      var u := if side.Handler? then HandlerNext(t) else WorkerNext(t);
      if side.Handler? {
        HandlerStepKeepsInv(t);
        HandlerStepDecreases(t);
      } else {
        WorkerStepKeepsInv(t);
        WorkerStepDecreases(t);
      }
      var rest := HandlerFirst(u);
      run := [side] + rest;
      assert run[1..] == rest;
    }
  }

  /** For every non-empty file some interleaving ends where setting the segment up again strands the worker. */
  lemma {:induction false} ResetStrandsWorker(file: seq<Octet>, buffer: seq<Octet>) returns (run: seq<Side>)
    requires file != [] && |buffer| == SHARED
    ensures var t := Created(Some(file), buffer).(worker := WriteLength);
            && CanRun(t, run) && Ran(t, run).handler.Finished?
            && forall n :: !WorkerByItself(Reset(Ran(t, run)), n).worker.Stopped?
  {
    var t := Created(Some(file), buffer).(worker := WriteLength);
    run := HandlerFirst(t);
    WorkerAfterHandler(Ran(t, run));
    ResetSparesWorkerExactly(Ran(t, run));
  }
}
