/**
 Whole runs of the proxy and the cache daemon: what every reachable state satisfies, that
 no reachable state is stuck, and that every request is answered, and answered rightly.
 */
module ProxyRuns {
  import opened Options
  import opened Totals
  import opened Transfer
  import opened ProxyCache

  // ---------------------------------------------------------------- runs

  /** A segment nobody has used yet. */
  predicate Unused(t: Transfer) {
    && t == Created(None, t.buffer).(fileLength := 0, length := 0, handler := Finished, worker := Stopped)
    && |t.buffer| == SHARED
  }

  /** webproxy and simplecached after start-up: every segment free, nobody at work. */
  ghost predicate Initial(s: System) {
    && (forall h :: 0 <= h < |s.handlers| ==> s.handlers[h] == Idle)
    && s.mutex == None
    && s.free == seq(|s.transfers|, i => i)
    && s.holder == seq(|s.transfers|, _ => None)
    && (forall i :: 0 <= i < |s.transfers| ==> Unused(s.transfers[i]))
    && s.mq == [] && s.boss == Reading && s.queue == [] && s.semCache == 0
    && (forall w :: 0 <= w < |s.workers| ==> s.workers[w] == Free)
    && s.server == seq(|s.transfers|, _ => None)
    && s.posted == [] && s.taken == [] && s.answers == []
  }

  /** A finite run: any interleaving of enabled steps of any threads. */
  ghost predicate IsRun(cache: Cache, states: seq<System>, steps: seq<Step>) {
    && |states| == |steps| + 1
    && Initial(states[0])
    && forall k :: 0 <= k < |steps| ==>
      Enabled(states[k], steps[k]) && states[k + 1] == Next(cache, states[k], steps[k])
  }

  lemma {:induction false} UnusedInv(t: Transfer)
    requires Unused(t)
    ensures Inv(t) && t.handler.Finished? && t.worker.Stopped?
  {
  }

  lemma {:induction false} InitialPool(s: System)
    requires Initial(s)
    ensures MutexOk(s.handlers, s.mutex) && PoolOk(s.handlers, s.free, s.holder)
  {
    forall i | 0 <= i < |s.holder| ensures i in s.free {
      assert s.free[i] == i;
    }
  }

  lemma {:induction false} InitialSegments(cache: Cache, s: System)
    requires Initial(s)
    ensures SegmentsOk(cache, s.transfers, Users(s.handlers, s.holder)) && ServiceOk(s.workers, s.server, s.transfers)
    ensures PipelineOk([], s.transfers, Users(s.handlers, s.holder))
  {
    var us := Users(s.handlers, s.holder);
    forall i | 0 <= i < |s.transfers|
      ensures SegmentOk(cache, s.transfers[i], us[i]) && !Attended(s.transfers[i]) && !Waits(s.transfers[i], us[i])
    {
      UnusedInv(s.transfers[i]);
    }
  }

  lemma {:induction false} InitialInv(cache: Cache, s: System)
    requires Initial(s)
    ensures SystemInv(cache, s)
  {
    InitialPool(s);
    InitialSegments(cache, s);
    TotalZero(s.handlers, Asleep);
    TotalZero(s.workers, IsPopping);
    assert Pipeline(s) == [];
  }

  /** The invariant holds in every state of every run. */
  lemma {:induction false} RunKeepsInv(cache: Cache, states: seq<System>, steps: seq<Step>, k: nat)
    requires IsRun(cache, states, steps) && k < |states|
    ensures SystemInv(cache, states[k])
  {
    if k == 0 {
      InitialInv(cache, states[0]);
    } else {
      RunKeepsInv(cache, states, steps, k - 1);
      StepKeepsInv(cache, states[k - 1], steps[k - 1]);
    }
  }

  /** There is a start-up state for any number of threads and segments. */
  lemma {:induction false} StartUp(handlers: nat, segments: nat, workers: nat) returns (s: System)
    ensures Initial(s) && |s.handlers| == handlers && |s.transfers| == segments && |s.workers| == workers
  {
    var buffer := Zeroed(SHARED);
    var unused := Created(None, buffer).(fileLength := 0, length := 0, handler := Finished, worker := Stopped);
    s := System(seq(handlers, _ => Idle), None, seq(segments, i => i), seq(segments, _ => None),
                seq(segments, _ => unused), [], Reading, [], 0,
                seq(workers, _ => Free), seq(segments, _ => None), [], [], []);
  }

  /** The message queue never holds more than its ten messages. */
  lemma {:induction false} MessagesBounded(cache: Cache, states: seq<System>, steps: seq<Step>, k: nat)
    requires IsRun(cache, states, steps) && k < |states|
    ensures |states[k].mq| <= 10
  {
    if k > 0 {
      MessagesBounded(cache, states, steps, k - 1);
    }
  }

  /** And a handler with the mutex can send exactly while there is room. */
  lemma {:induction false} SendsWhileRoom(s: System, h: nat)
    requires h < |s.handlers| && s.handlers[h].Sending?
    ensures Enabled(s, SendRequest(h)) <==> |s.mq| < 10
  {
  }

  // ---------------------------------------------------------------- safety

  /** Every answer ever given is the cached file, or rightly says there is none. */
  lemma {:induction false} AnswersAreRight(cache: Cache, states: seq<System>, steps: seq<Step>, k: nat, a: Answer)
    requires IsRun(cache, states, steps) && k < |states| && a in states[k].answers
    ensures a.path in cache ==> a.sent == cache[a.path] && a.length == |cache[a.path]|
    ensures a.path !in cache ==> a.sent == [] && a.length == 0
  {
    RunKeepsInv(cache, states, steps, k);
  }

  /** Workers take requests in the order in which handlers posted them. */
  lemma {:induction false} RequestsInOrder(cache: Cache, states: seq<System>, steps: seq<Step>, k: nat)
    requires IsRun(cache, states, steps) && k < |states|
    ensures states[k].taken <= states[k].posted
  {
    RunKeepsInv(cache, states, steps, k);
  }

  /** A worker that is past sem_wait finds a request: steque_pop never underflows. */
  lemma {:induction false} PopNeverUnderflows(cache: Cache, states: seq<System>, steps: seq<Step>, k: nat, w: nat)
    requires IsRun(cache, states, steps) && k < |states| && w < |states[k].workers| && states[k].workers[w].Popping?
    ensures states[k].queue != [] && Enabled(states[k], WorkerPop(w))
  {
    var s := states[k];
    RunKeepsInv(cache, states, steps, k);
    TotalCovers(s.workers, w, IsPopping);
    assert Pipeline(s)[0] == s.queue[0];
  }

  /** Each segment is either free, once, or in the hands of exactly one handler. */
  lemma {:induction false} SegmentsPartitioned(cache: Cache, states: seq<System>, steps: seq<Step>, k: nat, i: nat)
    requires IsRun(cache, states, steps) && k < |states| && i < |states[k].transfers|
    ensures var s := states[k];
            && (i in s.free <==> !exists h :: 0 <= h < |s.handlers| && Segment(s.handlers[h]) == Some(i))
            && (forall h, g | 0 <= h < |s.handlers| && 0 <= g < |s.handlers| ::
                  Segment(s.handlers[h]) == Some(i) && Segment(s.handlers[g]) == Some(i) ==> h == g)
            && (forall a, b :: 0 <= a < |s.free| && 0 <= b < |s.free| && s.free[a] == s.free[b] ==> a == b)
  {
    var s := states[k];
    RunKeepsInv(cache, states, steps, k);
    if i !in s.free {
      assert Segment(s.handlers[s.holder[i].value]) == Some(i);
    }
  }

  /** While a handler sleeps there are no more free segments than handlers coming to look or to signal. */
  lemma {:induction false} NoLostWakeup(cache: Cache, states: seq<System>, steps: seq<Step>, k: nat, h: nat)
    requires IsRun(cache, states, steps) && k < |states| && h < |states[k].handlers| && states[k].handlers[h].Sleeping?
    ensures |states[k].free| <= Total(states[k].handlers, Awake)
  {
    RunKeepsInv(cache, states, steps, k);
    TotalCovers(states[k].handlers, h, Asleep);
  }

  /** In no segment are handler and worker in the buffer together, and what was sent is a prefix of the file. */
  lemma {:induction false} SegmentsAreSafe(cache: Cache, states: seq<System>, steps: seq<Step>, k: nat, i: nat)
    requires IsRun(cache, states, steps) && k < |states| && i < |states[k].transfers|
    ensures var t := states[k].transfers[i]; !(InBuffer(t) && WorkerInBuffer(t)) && t.sent <= Content(t)
  {
    RunKeepsInv(cache, states, steps, k);
    assert SegmentOk(cache, states[k].transfers[i], Users(states[k].handlers, states[k].holder)[i]);
    BufferExclusive(states[k].transfers[i]);
  }

  // ---------------------------------------------------------------- no deadlock

  predicate FromEnvironment(step: Step) { step.Arrive? || step.Spurious? }

  predicate Quiet(s: System) { forall h :: 0 <= h < |s.handlers| ==> s.handlers[h].Idle? }

  predicate WantsLock(h: Handler) { h.WantPool? || h.Woken? || h.WantSend? || h.WantReturn? }

  lemma {:induction false} BossCanMove(s: System) returns (step: Step)
    requires s.mq != [] || !s.boss.Reading?
    ensures Enabled(s, step) && !FromEnvironment(step)
  {
    step := match s.boss case Reading => BossRead case Got(_) => BossEnqueue case Posting => BossPost;
  }

  lemma {:induction false} OwnerCanMove(s: System, h: nat) returns (step: Step)
    requires h < |s.handlers| && HoldsMutex(s.handlers[h]) && PoolOk(s.handlers, s.free, s.holder)
    ensures Enabled(s, step) && !FromEnvironment(step)
  {
    var x := s.handlers[h];
    if x.AtTest? {
      step := TestPool(h);
    } else if x.Returning? {
      step := ReturnSegment(h);
    } else if x.Sending? {
      if |s.mq| < MQ_MAXMSG { step := SendRequest(h); } else { step := BossCanMove(s); }
    } else {
      step := Unlock(h);
    }
  }

  lemma {:induction false} SignallerCanMove(s: System, h: nat) returns (step: Step)
    requires h < |s.handlers| && s.handlers[h].Signalling?
    ensures Enabled(s, step) && !FromEnvironment(step)
  {
    if Total(s.handlers, Asleep) == 0 {
      step := Signal(h, None);
    } else {
      var k := TotalWitness(s.handlers, Asleep);
      step := Signal(h, Some(k));
    }
  }

  lemma {:induction false} AttendantCanMove(s: System, i: nat) returns (step: Step)
    requires ServiceOk(s.workers, s.server, s.transfers) && i < |s.transfers|
    requires Inv(s.transfers[i]) && WorkerEnabled(s.transfers[i])
    ensures Enabled(s, step) && !FromEnvironment(step)
  {
    assert s.server[i].Some?;
    step := WorkerMove(s.server[i].value);
  }

  /** The handler of a segment in a worker's care can move, or let the mutex go. */
  lemma {:induction false} UserCanMove(cache: Cache, s: System, i: nat) returns (step: Step)
    requires SystemInv(cache, s) && i < |s.transfers| && Attended(s.transfers[i]) && HandlerEnabled(s.transfers[i])
    ensures Enabled(s, step) && !FromEnvironment(step)
  {
    var us, t := Users(s.handlers, s.holder), s.transfers[i];
    assert SegmentOk(cache, t, us[i]);
    assert us[i].Some? && us[i].value.dispatched;
    var h := s.holder[i].value;
    step := if s.handlers[h].InTransfer? then HandlerMove(h) else Unlock(h);
  }

  /** A busy worker's transfer can go on, on one side or the other. */
  lemma {:induction false} AttendedCanMove(cache: Cache, s: System, i: nat) returns (step: Step)
    requires SystemInv(cache, s) && i < |s.transfers| && Attended(s.transfers[i])
    ensures Enabled(s, step) && !FromEnvironment(step)
  {
    var t := s.transfers[i];
    assert SegmentOk(cache, t, Users(s.handlers, s.holder)[i]);
    NeverStuck(t);
    if WorkerEnabled(t) {
      step := AttendantCanMove(s, i);
    } else {
      step := UserCanMove(cache, s, i);
    }
  }

  /** While requests are on their way, the boss or some worker can move. */
  lemma {:induction false} PipelineCanMove(cache: Cache, s: System) returns (step: Step)
    requires SystemInv(cache, s) && Pipeline(s) != [] && s.workers != []
    ensures Enabled(s, step) && !FromEnvironment(step)
  {
    if s.mq != [] || !s.boss.Reading? {
      step := BossCanMove(s);
    } else if Total(s.workers, IsPopping) > 0 {
      var w := TotalWitness(s.workers, IsPopping);
      assert Pipeline(s)[0] == s.queue[0];
      step := WorkerPop(w);
    } else {
      assert s.semCache > 0;
      TotalCovers(s.workers, 0, IsPopping);
      if s.workers[0].Free? {
        step := WorkerWait(0);
      } else if s.workers[0].Exiting? {
        step := WorkerExit(0);
      } else {
        var i := s.workers[0].segment;
        assert s.server[i] == Some(0);
        step := AttendedCanMove(cache, s, i);
      }
    }
  }

  lemma {:induction false} TransferCanMove(cache: Cache, s: System, h: nat) returns (step: Step)
    requires SystemInv(cache, s) && s.workers != [] && h < |s.handlers| && s.handlers[h].InTransfer?
    ensures Enabled(s, step) && !FromEnvironment(step)
  {
    var i := s.handlers[h].seg;
    UserIs(s, h);
    var t, us := s.transfers[i], Users(s.handlers, s.holder);
    assert SegmentOk(cache, t, us[i]);
    if t.handler.Finished? {
      step := Leave(h);
    } else if HandlerEnabled(t) {
      step := HandlerMove(h);
    } else if t.worker.Waiting? {
      assert Waits(t, us[i]);
      step := PipelineCanMove(cache, s);
    } else {
      NeverStuck(t);
      step := AttendantCanMove(s, i);
    }
  }

  lemma {:induction false} CreatorCanMove(cache: Cache, s: System, h: nat) returns (step: Step)
    requires SystemInv(cache, s) && h < |s.handlers| && s.handlers[h].Creating?
    ensures Enabled(s, step) && !FromEnvironment(step)
  {
    var i := s.handlers[h].seg;
    UserIs(s, h);
    assert SegmentOk(cache, s.transfers[i], Users(s.handlers, s.holder)[i]);
    WorkerAfterHandler(s.transfers[i]);
    WorkerFinishesAlone(s.transfers[i]);
    if s.transfers[i].semWriter == 0 {
      step := CreateSegment(h);
    } else {
      step := AttendantCanMove(s, i);
    }
  }

  /** Not all handlers that are not idle can be asleep: somebody holds a segment. */
  lemma {:induction false} NotAllAsleep(cache: Cache, s: System)
    requires SystemInv(cache, s) && s.transfers != []
    requires forall h :: 0 <= h < |s.handlers| ==> s.handlers[h].Idle? || s.handlers[h].Sleeping?
    ensures Quiet(s)
  {
    assert s.holder[0].None?;
    assert s.free != [];
    TotalZero(s.handlers, Awake);
    forall h | 0 <= h < |s.handlers| ensures s.handlers[h].Idle? {
      TotalCovers(s.handlers, h, Asleep);
    }
  }

  /** As long as some handler is at work, some thread can take a step, whoever else is blocked. */
  lemma {:induction false} NoDeadlock(cache: Cache, s: System) returns (step: Step)
    requires SystemInv(cache, s) && s.workers != [] && s.transfers != [] && !Quiet(s)
    ensures Enabled(s, step) && !FromEnvironment(step)
  {
    if s.mutex.Some? {
      step := OwnerCanMove(s, s.mutex.value);
    } else if h: nat :| h < |s.handlers| && WantsLock(s.handlers[h]) {
      step := Lock(h);
    } else if h: nat :| h < |s.handlers| && s.handlers[h].Signalling? {
      step := SignallerCanMove(s, h);
    } else if h: nat :| h < |s.handlers| && s.handlers[h].InTransfer? {
      step := TransferCanMove(cache, s, h);
    } else if h: nat :| h < |s.handlers| && s.handlers[h].Creating? {
      step := CreatorCanMove(cache, s, h);
    } else {
      forall h | 0 <= h < |s.handlers| ensures s.handlers[h].Idle? || s.handlers[h].Sleeping? {
        assert !HoldsMutex(s.handlers[h]);
      }
      NotAllAsleep(cache, s);
      assert false;
    }
  }

  // ---------------------------------------------------------------- termination

  function FreshMeasure(cache: Cache, path: Path): nat {
    12000 * (if path in cache then |cache[path]| else 0) + 10518
  }

  /** How far a handler is from being idle again, its transfer apart. */
  function HandlerWork(cache: Cache, h: Handler): nat {
    match h
    case Idle => 0
    case WantPool(p) => FreshMeasure(cache, p) + 28
    case AtTest(p) => FreshMeasure(cache, p) + 27
    case Sleeping(p) => FreshMeasure(cache, p) + 25
    case Woken(p) => FreshMeasure(cache, p) + 28
    case Popped(p, _) => FreshMeasure(cache, p) + 24
    case Creating(p, _) => FreshMeasure(cache, p) + 23
    case WantSend(_, _) => 21
    case Sending(_, _) => 20
    case Sent(_, _) => 9
    case InTransfer(_, _) => 8
    case WantReturn(_) => 7
    case Returning(_) => 6
    case Returned => 5
    case Signalling => 4
  }

  function Work(cache: Cache): Handler -> nat { (h: Handler) => HandlerWork(cache, h) }

  function TransferWork(t: Transfer): nat {
    if |t.sent| <= |Content(t)| && t.transferred <= |Content(t)| then Measure(t) else 0
  }

  function WorkerWork(w: Worker): nat { Flag(w.Popping? || w.Exiting?) }

  function BossWork(b: Boss): nat { if b.Got? then 7 else if b.Posting? then 3 else 0 }

  function Remaining(cache: Cache, s: System): nat {
    Total(s.handlers, Work(cache)) + Total(s.transfers, TransferWork)
    + 8 * |s.mq| + BossWork(s.boss) + 3 * |s.queue| + 2 * s.semCache + Total(s.workers, WorkerWork)
  }

  /** What a handler's step does to the two sums it can change. */
  lemma {:induction false} HandlerSums(cache: Cache, s: System, step: Step)
    requires Enabled(s, step) && HandlerStep(step) && !FromEnvironment(step)
    ensures Total(NextHandlers(s, step), Work(cache)) + HandlerWork(cache, s.handlers[step.h])
            <= Total(s.handlers, Work(cache)) + HandlerWork(cache, Moved(s, step)) + if step.Signal? then 3 else 0
  {
    var f, h, x := Work(cache), step.h, Moved(s, step);
    TotalUpdate(s.handlers, h, x, f);
    if step.Signal? && step.woken.Some? {
      var k := step.woken.value;
      TotalUpdate(s.handlers[h := x], k, Woken(s.handlers[k].path), f);
    }
  }

  lemma {:induction false} CreatedWork(cache: Cache, path: Path, buffer: seq<Octet>)
    ensures TransferWork(Created(Lookup(cache, path), buffer)) == FreshMeasure(cache, path)
  {
  }

  lemma {:induction false} DepartedWork(ws: seq<Worker>, w: Option<nat>, t: Transfer)
    requires w.Some? ==> w.value < |ws|
    ensures Total(Departed(ws, w, t), WorkerWork) <= Total(ws, WorkerWork) + 1
  {
    if w.Some? {
      TotalUpdate(ws, w.value, Exiting(t.transferred, |Content(t)|), WorkerWork);
    }
  }

  lemma {:induction false} CreateDecreases(cache: Cache, s: System, h: nat)
    requires Enabled(s, CreateSegment(h))
    ensures Remaining(cache, Next(cache, s, CreateSegment(h))) < Remaining(cache, s)
  {
    var x := s.handlers[h];
    HandlerSums(cache, s, CreateSegment(h));
    CreatedWork(cache, x.path, s.transfers[x.seg].buffer);
    DepartedWork(s.workers, s.server[x.seg], s.transfers[x.seg]);
    TotalUpdate(s.transfers, x.seg, Created(Lookup(cache, x.path), s.transfers[x.seg].buffer), TransferWork);
  }

  /** Inside a segment a step of either side, and the worker's arrival, leave less to do. */
  lemma {:induction false} TransferWorkDecreases(t: Transfer)
    requires Inv(t)
    ensures HandlerEnabled(t) ==> TransferWork(HandlerNext(t)) < TransferWork(t)
    ensures WorkerEnabled(t) ==> TransferWork(WorkerNext(t)) < TransferWork(t)
    ensures t.worker.Waiting? ==> TransferWork(t.(worker := WriteLength)) < TransferWork(t)
  {
    if HandlerEnabled(t) {
      HandlerStepDecreases(t);
    }
    if WorkerEnabled(t) {
      WorkerStepDecreases(t);
    }
  }

  lemma {:induction false} MoveDecreases(cache: Cache, s: System, h: nat)
    requires Enabled(s, HandlerMove(h)) && Inv(s.transfers[s.handlers[h].seg])
    ensures Remaining(cache, Next(cache, s, HandlerMove(h))) < Remaining(cache, s)
  {
    var i := s.handlers[h].seg;
    HandlerSums(cache, s, HandlerMove(h));
    TransferWorkDecreases(s.transfers[i]);
    TotalUpdate(s.transfers, i, HandlerNext(s.transfers[i]), TransferWork);
  }

  lemma {:induction false} HandlerDecreases(cache: Cache, s: System, step: Step)
    requires Enabled(s, step) && HandlerStep(step) && !FromEnvironment(step)
    requires !step.CreateSegment? && !step.HandlerMove?
    ensures Remaining(cache, Next(cache, s, step)) < Remaining(cache, s)
  {
    HandlerSums(cache, s, step);
  }

  lemma {:induction false} PopDecreases(cache: Cache, s: System, w: nat)
    requires Enabled(s, WorkerPop(w))
    requires var t := s.transfers[s.queue[0].segment];
             Inv(t) && t.worker.Waiting? && t.file == Lookup(cache, s.queue[0].path)
    ensures Remaining(cache, Next(cache, s, WorkerPop(w))) < Remaining(cache, s)
  {
    var i := s.queue[0].segment;
    TotalUpdate(s.workers, w, Serving(i), WorkerWork);
    TransferWorkDecreases(s.transfers[i]);
    TotalUpdate(s.transfers, i, s.transfers[i].(worker := WriteLength), TransferWork);
  }

  lemma {:induction false} WorkDecreases(cache: Cache, s: System, w: nat)
    requires Enabled(s, WorkerMove(w)) && Inv(s.transfers[s.workers[w].segment])
    ensures Remaining(cache, Next(cache, s, WorkerMove(w))) < Remaining(cache, s)
  {
    var i := s.workers[w].segment;
    TransferWorkDecreases(s.transfers[i]);
    TotalUpdate(s.transfers, i, WorkerNext(s.transfers[i]), TransferWork);
    TotalUpdate(s.workers, w, Free, WorkerWork);
  }

  lemma {:induction false} BossDecreases(cache: Cache, s: System, step: Step)
    requires Enabled(s, step)
             && (step.BossRead? || step.BossEnqueue? || step.BossPost? || step.WorkerWait? || step.WorkerExit?)
    ensures Remaining(cache, Next(cache, s, step)) < Remaining(cache, s)
  {
    if step.WorkerWait? {
      TotalUpdate(s.workers, step.w, Popping, WorkerWork);
    } else if step.WorkerExit? {
      TotalUpdate(s.workers, step.w, Free, WorkerWork);
    }
  }

  lemma {:induction false} PoppedIsWaiting(cache: Cache, s: System, w: nat)
    requires SystemInv(cache, s) && Enabled(s, WorkerPop(w))
    ensures var t := s.transfers[s.queue[0].segment];
            Inv(t) && t.worker.Waiting? && t.file == Lookup(cache, s.queue[0].path)
  {
    var i := s.queue[0].segment;
    assert Pipeline(s)[0] == s.queue[0];
    assert SegmentOk(cache, s.transfers[i], Users(s.handlers, s.holder)[i]);
    assert Waits(s.transfers[i], Users(s.handlers, s.holder)[i]);
  }

  lemma {:induction false} SegmentInv(cache: Cache, s: System, i: nat)
    requires SystemInv(cache, s) && i < |s.transfers|
    ensures Inv(s.transfers[i])
  {
    assert SegmentOk(cache, s.transfers[i], Users(s.handlers, s.holder)[i]);
  }

  /** Every step except a new request and a spurious wakeup leaves strictly less to do. */
  lemma {:induction false} StepDecreases(cache: Cache, s: System, step: Step)
    requires SystemInv(cache, s) && Enabled(s, step) && !FromEnvironment(step)
    ensures Remaining(cache, Next(cache, s, step)) < Remaining(cache, s)
  {
    if step.CreateSegment? {
      CreateDecreases(cache, s, step.h);
    } else if step.HandlerMove? {
      SegmentInv(cache, s, s.handlers[step.h].seg);
      MoveDecreases(cache, s, step.h);
    } else if step.WorkerPop? {
      PoppedIsWaiting(cache, s, step.w);
      PopDecreases(cache, s, step.w);
    } else if step.WorkerMove? {
      SegmentInv(cache, s, s.workers[step.w].segment);
      WorkDecreases(cache, s, step.w);
    } else if HandlerStep(step) {
      HandlerDecreases(cache, s, step);
    } else {
      BossDecreases(cache, s, step);
    }
  }

  // ---------------------------------------------------------------- every request is answered

  /** The handler has a request in hand that it has not answered. */
  predicate Pending(h: Handler) {
    !(h.Idle? || h.WantReturn? || h.Returning? || h.Returned? || h.Signalling?)
  }

  /** Of the requests in hand, those for the given path. */
  function Unanswered(path: Path): Handler -> nat {
    (h: Handler) => Flag(Pending(h) && h.path == path)
  }

  function Answered(answers: seq<Answer>, path: Path): nat {
    if answers == [] then 0
    else Answered(answers[..|answers| - 1], path) + Flag(answers[|answers| - 1].path == path)
  }

  function Arrivals(steps: seq<Step>, path: Path): nat {
    if steps == [] then 0
    else
      var last := steps[|steps| - 1];
      Arrivals(steps[..|steps| - 1], path) + Flag(last.Arrive? && last.path == path)
  }

  lemma {:induction false} AnswerCounts(answers: seq<Answer>, a: Answer, path: Path)
    ensures Answered(answers + [a], path) == Answered(answers, path) + Flag(a.path == path)
  {
    assert (answers + [a])[..|answers|] == answers;
  }

  /** Its own step takes a request into a handler's hands, out of them, or leaves it there. */
  lemma {:induction false} MovedCounts(s: System, step: Step, path: Path)
    requires Enabled(s, step) && HandlerStep(step)
    ensures var f, h := Unanswered(path), s.handlers[step.h];
            f(Moved(s, step)) + Flag(step.Leave? && h.path == path) == f(h) + Flag(step.Arrive? && step.path == path)
  {
  }

  lemma {:induction false} WakingCounts(h: Handler, path: Path)
    requires h.Sleeping?
    ensures Unanswered(path)(Woken(h.path)) == Unanswered(path)(h)
  {
  }

  lemma {:induction false} HandlersCount(s: System, step: Step, path: Path)
    requires Enabled(s, step) && HandlerStep(step)
    ensures var f, h := Unanswered(path), s.handlers[step.h];
            Total(NextHandlers(s, step), f) + Flag(step.Leave? && h.path == path)
            == Total(s.handlers, f) + Flag(step.Arrive? && step.path == path)
  {
    var x, f := Moved(s, step), Unanswered(path);
    MovedCounts(s, step, path);
    TotalUpdate(s.handlers, step.h, x, f);
    if step.Signal? && step.woken.Some? {
      var k := step.woken.value;
      WakingCounts(s.handlers[k], path);
      TotalUpdate(s.handlers[step.h := x], k, Woken(s.handlers[k].path), f);
    }
  }

  lemma {:induction false} StepCountsAnswers(cache: Cache, s: System, step: Step, path: Path)
    requires Enabled(s, step)
    ensures var u := Next(cache, s, step);
            Answered(u.answers, path) + Total(u.handlers, Unanswered(path))
            == Answered(s.answers, path) + Total(s.handlers, Unanswered(path)) + Flag(step.Arrive? && step.path == path)
  {
    if HandlerStep(step) {
      HandlersCount(s, step, path);
      if step.Leave? {
        var h, t := s.handlers[step.h], s.transfers[s.handlers[step.h].seg];
        AnswerCounts(s.answers, Answer(h.path, t.length, t.sent), path);
      }
    }
  }

  /**
   In every reachable state, path by path, the answers and the requests in hand are the requests
   that have arrived.
   */
  lemma {:induction false} RunCountsAnswers(cache: Cache, states: seq<System>, steps: seq<Step>, k: nat, path: Path)
    requires IsRun(cache, states, steps) && k < |states|
    ensures Answered(states[k].answers, path) + Total(states[k].handlers, Unanswered(path))
            == Arrivals(steps[..k], path)
  {
    if k == 0 {
      TotalZero(states[0].handlers, Unanswered(path));
    } else {
      RunCountsAnswers(cache, states, steps, k - 1, path);
      StepCountsAnswers(cache, states[k - 1], steps[k - 1], path);
      assert steps[..k][..k - 1] == steps[..k - 1];
    }
  }

  lemma {:induction false} RestIsAnswered(cache: Cache, states: seq<System>, steps: seq<Step>)
    requires IsRun(cache, states, steps) && Quiet(states[|steps|])
    ensures forall path :: Answered(states[|steps|].answers, path) == Arrivals(steps, path)
  {
    var n := |steps|;
    assert steps[..n] == steps;
    forall path ensures Answered(states[n].answers, path) == Arrivals(steps, path) {
      TotalZero(states[n].handlers, Unanswered(path));
      RunCountsAnswers(cache, states, steps, n, path);
    }
  }

  /**
   Once requests stop arriving, the threads can take at most `Remaining` more steps, in any
   order; and where none is left to take, every path has been answered as often as it was
   requested, and rightly each time.
   */
  lemma {:induction false} EveryRequestAnswered(cache: Cache, states: seq<System>, steps: seq<Step>, k: nat)
    requires IsRun(cache, states, steps) && k <= |steps|
    requires states[0].workers != [] && states[0].transfers != []
    requires forall j :: k <= j < |steps| ==> !FromEnvironment(steps[j])
    ensures |steps| - k <= Remaining(cache, states[k]) - Remaining(cache, states[|steps|])
    ensures (forall step :: Enabled(states[|steps|], step) ==> FromEnvironment(step)) ==>
              && Quiet(states[|steps|])
              && (forall path :: Answered(states[|steps|].answers, path) == Arrivals(steps, path))
              && forall a :: a in states[|steps|].answers ==>
                   if a.path in cache then a.sent == cache[a.path] && a.length == |cache[a.path]|
                   else a.sent == [] && a.length == 0
  {
    var n := |steps|;
    WorkRunsOut(cache, states, steps, k, n);
    RunKeepsInv(cache, states, steps, n);
    ThreadsStay(cache, states, steps, n);
    if forall step :: Enabled(states[n], step) ==> FromEnvironment(step) {
      if !Quiet(states[n]) {
        var step := NoDeadlock(cache, states[n]);
        assert false;
      }
      RestIsAnswered(cache, states, steps);
    }
  }

  lemma {:induction false} WorkRunsOut(cache: Cache, states: seq<System>, steps: seq<Step>, k: nat, n: nat)
    requires IsRun(cache, states, steps) && k <= n <= |steps|
    requires forall j :: k <= j < n ==> !FromEnvironment(steps[j])
    ensures Remaining(cache, states[n]) + (n - k) <= Remaining(cache, states[k])
    decreases n
  {
    if k < n {
      WorkRunsOut(cache, states, steps, k, n - 1);
      RunStepDecreases(cache, states, steps, n - 1);
    }
  }

  lemma {:induction false} RunStepDecreases(cache: Cache, states: seq<System>, steps: seq<Step>, j: nat)
    requires IsRun(cache, states, steps) && j < |steps| && !FromEnvironment(steps[j])
    ensures Remaining(cache, states[j + 1]) < Remaining(cache, states[j])
  {
    RunKeepsInv(cache, states, steps, j);
    StepDecreases(cache, states[j], steps[j]);
  }

  lemma {:induction false} ThreadsStay(cache: Cache, states: seq<System>, steps: seq<Step>, k: nat)
    requires IsRun(cache, states, steps) && k < |states|
    ensures |states[k].workers| == |states[0].workers| && |states[k].transfers| == |states[0].transfers|
  {
    if k > 0 {
      ThreadsStay(cache, states, steps, k - 1);
    }
  }

  /**
   From every reachable state the threads can bring everything to rest by themselves, so that
   every request is answered, whatever has happened before.
   */
  lemma {:induction false} RunsToRest(cache: Cache, states: seq<System>, steps: seq<Step>)
    returns (longer: seq<System>, more: seq<Step>)
    requires IsRun(cache, states, steps) && states[0].workers != [] && states[0].transfers != []
    ensures IsRun(cache, longer, more) && |more| >= |steps| && more[..|steps|] == steps
    ensures forall j :: |steps| <= j < |more| ==> !FromEnvironment(more[j])
    ensures Quiet(longer[|more|])
    ensures forall path :: Answered(longer[|more|].answers, path) == Arrivals(steps, path)
    decreases Remaining(cache, states[|steps|])
  {
    if Quiet(states[|steps|]) {
      longer, more := states, steps;
      RestIsAnswered(cache, states, steps);
    } else {
      var u, step := StepTowardsRest(cache, states, steps);
      longer, more := RunsToRest(cache, states + [u], steps + [step]);
      LongerStill(steps, step, more);
      NoArrival(steps, step);
    }
  }

  lemma {:induction false} StepTowardsRest(cache: Cache, states: seq<System>, steps: seq<Step>)
    returns (u: System, step: Step)
    requires IsRun(cache, states, steps) && states[0].workers != [] && states[0].transfers != []
    requires !Quiet(states[|steps|])
    ensures IsRun(cache, states + [u], steps + [step]) && !FromEnvironment(step)
    ensures Remaining(cache, u) < Remaining(cache, states[|steps|])
  {
    var n := |steps|;
    RunKeepsInv(cache, states, steps, n);
    ThreadsStay(cache, states, steps, n);
    step := NoDeadlock(cache, states[n]);
    StepDecreases(cache, states[n], step);
    ExtendRun(cache, states, steps, step);
    u := Next(cache, states[n], step);
  }

  lemma {:induction false} LongerStill(steps: seq<Step>, step: Step, more: seq<Step>)
    requires |more| > |steps| && more[..|steps| + 1] == steps + [step]
    ensures more[..|steps|] == steps && more[|steps|] == step
  {
    assert more[..|steps|] == more[..|steps| + 1][..|steps|];
    assert more[|steps|] == more[..|steps| + 1][|steps|];
  }

  lemma {:induction false} ExtendRun(cache: Cache, states: seq<System>, steps: seq<Step>, step: Step)
    requires IsRun(cache, states, steps) && Enabled(states[|steps|], step)
    ensures IsRun(cache, states + [Next(cache, states[|steps|], step)], steps + [step])
  {
  }

  lemma {:induction false} NoArrival(steps: seq<Step>, step: Step)
    requires !step.Arrive?
    ensures forall path :: Arrivals(steps + [step], path) == Arrivals(steps, path)
  {
    assert (steps + [step])[..|steps|] == steps;
  }
}
