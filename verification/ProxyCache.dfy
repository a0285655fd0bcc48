/**
 The proxy and the cache daemon together: any number of handlers sharing a pool of
 segments behind one mutex and one condition variable, a message queue, a boss, a
 request queue counted by a semaphore, and any number of workers. Every step is one
 atomic action of one thread; a run is any interleaving of steps.
 */
module ProxyCache {
  import opened Options
  import opened Totals
  import opened Transfer

  type Path = string
  type Cache = map<Path, seq<Octet>>

  const MQ_MAXMSG: nat := 10

  function Lookup(cache: Cache, path: Path): Option<seq<Octet>> {
    if path in cache then Some(cache[path]) else None
  }

  /** The message a handler sends: the path and the index of its segment. */
  datatype Request = Request(path: Path, segment: nat)

  /** Where a handler thread is in handle_with_cache; several states hold the mutex. */
  datatype Handler =
    | Idle
    | WantPool(path: Path)
    | AtTest(path: Path)                     // holds the mutex, before the emptiness test
    | Sleeping(path: Path)                   // inside pthread_cond_wait
    | Woken(path: Path)                      // out of the wait, needs the mutex again
    | Popped(path: Path, seg: nat)           // holds the mutex
    | Creating(path: Path, seg: nat)
    | WantSend(path: Path, seg: nat)
    | Sending(path: Path, seg: nat)          // holds the mutex, before mq_send
    | Sent(path: Path, seg: nat)             // holds the mutex
    | InTransfer(path: Path, seg: nat)
    | WantReturn(seg: nat)
    | Returning(seg: nat)                    // holds the mutex, before the enqueue
    | Returned                               // holds the mutex
    | Signalling

  datatype Boss = Reading | Got(request: Request) | Posting

  /** Exiting: past its last token, with its own variables left, when the segment has been set up anew. */
  datatype Worker = Free | Popping | Serving(segment: nat) | Exiting(transferred: nat, length: nat)

  datatype Answer = Answer(path: Path, length: int, sent: seq<Octet>)

  datatype System = System(
    handlers: seq<Handler>, mutex: Option<nat>, free: seq<nat>, holder: seq<Option<nat>>,
    transfers: seq<Transfer>,
    mq: seq<Request>, boss: Boss, queue: seq<Request>, semCache: nat,
    workers: seq<Worker>, server: seq<Option<nat>>,
    posted: seq<Request>, taken: seq<Request>, answers: seq<Answer>)

  predicate HoldsMutex(h: Handler) {
    h.AtTest? || h.Popped? || h.Sending? || h.Sent? || h.Returning? || h.Returned?
  }

  function Segment(h: Handler): Option<nat> {
    if h.Popped? || h.Creating? || h.WantSend? || h.Sending? || h.Sent? || h.InTransfer? || h.WantReturn?
      || h.Returning?
    then Some(h.seg) else None
  }

  /** The handler uses its segment for the present request. */
  predicate Active(h: Handler) { h.WantSend? || h.Sending? || h.Sent? || h.InTransfer? }

  /** The handler's message has been sent. */
  predicate Dispatched(h: Handler) { h.Sent? || h.InTransfer? }

  function Asleep(h: Handler): nat { Flag(h.Sleeping?) }

  /** Handlers that will look at the pool again, or still owe a signal. */
  function Awake(h: Handler): nat { Flag(h.Woken? || h.AtTest? || h.Returned? || h.Signalling?) }

  function IsPopping(w: Worker): nat { Flag(w.Popping?) }

  function Hand(b: Boss): seq<Request> { if b.Got? then [b.request] else [] }

  /** Requests on their way, oldest first. */
  function Pipeline(s: System): seq<Request> { s.queue + Hand(s.boss) + s.mq }

  // ---------------------------------------------------------------- steps

  datatype Step =
    | Arrive(h: nat, path: Path) | Spurious(h: nat)      // the environment's
    | Lock(h: nat) | TestPool(h: nat) | Unlock(h: nat) | CreateSegment(h: nat) | SendRequest(h: nat)
    | HandlerMove(h: nat) | Leave(h: nat) | ReturnSegment(h: nat) | Signal(h: nat, woken: Option<nat>)
    | BossRead | BossEnqueue | BossPost
    | WorkerWait(w: nat) | WorkerPop(w: nat) | WorkerMove(w: nat) | WorkerExit(w: nat)

  /** The states in which a step that names a handler finds that handler. */
  predicate HandlerReady(s: System, step: Step, h: Handler) {
    match step
    case Arrive(_, _) => h.Idle?
    case Spurious(_) => h.Sleeping?
    case Lock(_) => (h.WantPool? || h.Woken? || h.WantSend? || h.WantReturn?) && s.mutex.None?
    case TestPool(_) => h.AtTest? && (s.free != [] ==> s.free[0] < |s.holder|)
    case Unlock(_) => h.Popped? || h.Sent? || h.Returned?
    // shm_create does not look; that the last worker has taken its last token is assumed here
    case CreateSegment(_) =>
      && h.Creating? && h.seg < |s.transfers| == |s.server| && s.transfers[h.seg].semWriter == 0
      && (s.server[h.seg].Some? ==> s.server[h.seg].value < |s.workers|)
    case SendRequest(_) => h.Sending? && |s.mq| < MQ_MAXMSG
    case HandlerMove(_) =>
      h.InTransfer? && h.seg < |s.transfers| && Sized(s.transfers[h.seg]) && HandlerEnabled(s.transfers[h.seg])
    case Leave(_) => h.InTransfer? && h.seg < |s.transfers| && s.transfers[h.seg].handler.Finished?
    case ReturnSegment(_) => h.Returning? && h.seg < |s.holder|
    case Signal(_, woken) =>
      && h.Signalling?
      && (woken.Some? ==> woken.value < |s.handlers| && s.handlers[woken.value].Sleeping?)
      && (woken.None? ==> Total(s.handlers, Asleep) == 0)
    case _ => false
  }

  predicate Enabled(s: System, step: Step) {
    match step
    case BossRead => s.boss.Reading? && s.mq != []
    case BossEnqueue => s.boss.Got?
    case BossPost => s.boss.Posting?
    case WorkerWait(w) => w < |s.workers| && s.workers[w].Free? && s.semCache > 0
    case WorkerPop(w) =>
      w < |s.workers| && s.workers[w].Popping? && s.queue != [] && s.queue[0].segment < |s.transfers| == |s.server|
    case WorkerMove(w) =>
      && w < |s.workers| && s.workers[w].Serving? && s.workers[w].segment < |s.transfers| == |s.server|
      && Sized(s.transfers[s.workers[w].segment]) && WorkerEnabled(s.transfers[s.workers[w].segment])
    case WorkerExit(w) => w < |s.workers| && s.workers[w].Exiting? && !(s.workers[w].transferred < s.workers[w].length)
    case _ => step.h < |s.handlers| && HandlerReady(s, step, s.handlers[step.h])
  }

  predicate HandlerStep(step: Step) {
    !(step.BossRead? || step.BossEnqueue? || step.BossPost? || step.WorkerWait? || step.WorkerPop? || step.WorkerMove?
      || step.WorkerExit?)
  }

  /** Where its own step takes a handler. */
  function Moved(s: System, step: Step): Handler
    requires Enabled(s, step) && HandlerStep(step)
  {
    var x := s.handlers[step.h];
    match step
    case Arrive(_, path) => WantPool(path)
    case Spurious(_) => Woken(x.path)
    case Lock(_) =>
      if x.WantSend? then Sending(x.path, x.seg) else if x.WantReturn? then Returning(x.seg) else AtTest(x.path)
    case TestPool(_) => if s.free == [] then Sleeping(x.path) else Popped(x.path, s.free[0])
    case Unlock(_) =>
      if x.Popped? then Creating(x.path, x.seg) else if x.Sent? then InTransfer(x.path, x.seg) else Signalling
    case CreateSegment(_) => WantSend(x.path, x.seg)
    case SendRequest(_) => Sent(x.path, x.seg)
    case Leave(_) => WantReturn(x.seg)
    case ReturnSegment(_) => Returned
    case Signal(_, _) => Idle
    case _ => x
  }

  function NextHandlers(s: System, step: Step): (hs: seq<Handler>)
    requires Enabled(s, step)
    ensures |hs| == |s.handlers|
  {
    if !HandlerStep(step) then s.handlers
    else
      var hs := s.handlers[step.h := Moved(s, step)];
      if step.Signal? && step.woken.Some? then hs[step.woken.value := Woken(s.handlers[step.woken.value].path)] else hs
  }

  /** The worker of a segment's last use, if it is still there, goes on with its own variables alone. */
  function Departed(ws: seq<Worker>, w: Option<nat>, t: Transfer): (r: seq<Worker>)
    requires w.Some? ==> w.value < |ws|
    ensures |r| == |ws|
  {
    if w.Some? then ws[w.value := Exiting(t.transferred, |Content(t)|)] else ws
  }

  /** Everything but the handlers' program counters, which NextHandlers moves. */
  function Next(cache: Cache, s: System, step: Step): System
    requires Enabled(s, step)
  {
    var t := s.(handlers := NextHandlers(s, step));
    match step
    case Lock(h) => t.(mutex := Some(h))
    case TestPool(h) =>
      if s.free == [] then t.(mutex := None)
      else t.(free := s.free[1..], holder := s.holder[s.free[0] := Some(h)])
    case Unlock(_) => t.(mutex := None)
    case CreateSegment(h) =>
      var x := s.handlers[h];
      var last := s.transfers[x.seg];
      t.(transfers := s.transfers[x.seg := Created(Lookup(cache, x.path), last.buffer)],
         workers := Departed(s.workers, s.server[x.seg], last), server := s.server[x.seg := None])
    case SendRequest(h) =>
      var r := Request(s.handlers[h].path, s.handlers[h].seg);
      t.(mq := s.mq + [r], posted := s.posted + [r])
    case HandlerMove(h) =>
      var i := s.handlers[h].seg;
      t.(transfers := s.transfers[i := HandlerNext(s.transfers[i])])
    case Leave(h) =>
      var x := s.handlers[h];
      t.(answers := s.answers + [Answer(x.path, s.transfers[x.seg].length, s.transfers[x.seg].sent)])
    case ReturnSegment(h) =>
      var i := s.handlers[h].seg;
      t.(free := s.free + [i], holder := s.holder[i := None])
    case BossRead => t.(boss := Got(s.mq[0]), mq := s.mq[1..])
    case BossEnqueue => t.(boss := Posting, queue := s.queue + [s.boss.request])
    case BossPost => t.(boss := Reading, semCache := s.semCache + 1)
    case WorkerWait(w) => t.(workers := s.workers[w := Popping], semCache := s.semCache - 1)
    case WorkerPop(w) =>
      var r := s.queue[0];
      t.(workers := s.workers[w := Serving(r.segment)], queue := s.queue[1..], taken := s.taken + [r],
         server := s.server[r.segment := Some(w)],
         transfers := s.transfers[r.segment := s.transfers[r.segment].(file := Lookup(cache, r.path),
           worker := WriteLength)])
    case WorkerMove(w) =>
      var i := s.workers[w].segment;
      var moved := WorkerNext(s.transfers[i]);
      if moved.worker.Stopped?
      then t.(transfers := s.transfers[i := moved], workers := s.workers[w := Free], server := s.server[i := None])
      else t.(transfers := s.transfers[i := moved])
    case WorkerExit(w) => t.(workers := s.workers[w := Free])
    case _ => t
  }

  // ---------------------------------------------------------------- the invariant

  /** The mutex belongs to the one handler that is between lock and unlock. */
  ghost predicate MutexOk(hs: seq<Handler>, m: Option<nat>) {
    && (m.Some? ==> m.value < |hs|)
    && forall h :: 0 <= h < |hs| ==> (HoldsMutex(hs[h]) <==> m == Some(h))
  }

  /** Free segments and held segments partition the indices. */
  ghost predicate PoolOk(hs: seq<Handler>, free: seq<nat>, holder: seq<Option<nat>>) {
    && (forall h :: 0 <= h < |hs| && Segment(hs[h]).Some? ==>
          Segment(hs[h]).value < |holder| && holder[Segment(hs[h]).value] == Some(h))
    && (forall i :: 0 <= i < |holder| && holder[i].Some? ==>
          holder[i].value < |hs| && Segment(hs[holder[i].value]) == Some(i))
    && (forall a :: 0 <= a < |free| ==> free[a] < |holder| && holder[free[a]].None?)
    && (forall i :: 0 <= i < |holder| && holder[i].None? ==> i in free)
    && (forall a, b :: 0 <= a < b < |free| ==> free[a] != free[b])
  }

  /** While a handler sleeps, every free segment has somebody coming for it. */
  ghost predicate WakeupInv(s: System) {
    Total(s.handlers, Asleep) > 0 ==> |s.free| <= Total(s.handlers, Awake)
  }

  datatype User = User(path: Path, dispatched: bool)

  /** The use a handler makes of its segment for its present request, if any. */
  function UserOf(h: Handler): Option<User> { if Active(h) then Some(User(h.path, Dispatched(h))) else None }

  function Users(hs: seq<Handler>, holder: seq<Option<nat>>): (us: seq<Option<User>>)
    ensures |us| == |holder|
  {
    seq(|holder|, i requires 0 <= i < |holder| =>
      if holder[i].Some? && holder[i].value < |hs| then UserOf(hs[holder[i].value]) else None)
  }

  /** A segment between uses has a finished handler; in use it carries the file its handler asked for. */
  ghost predicate SegmentOk(cache: Cache, t: Transfer, user: Option<User>) {
    && Inv(t)
    && (user.None? ==> t.handler.Finished?)
    && (user.Some? ==> t.file == Lookup(cache, user.value.path) && (!user.value.dispatched ==> t.worker.Waiting?))
  }

  ghost predicate SegmentsOk(cache: Cache, ts: seq<Transfer>, us: seq<Option<User>>) {
    |ts| == |us| && forall i :: 0 <= i < |ts| ==> SegmentOk(cache, ts[i], us[i])
  }

  predicate Waits(t: Transfer, user: Option<User>) {
    t.worker.Waiting? && user.Some? && user.value.dispatched
  }

  /** The requests on their way are those whose handlers wait for a worker, one each. */
  ghost predicate PipelineOk(p: seq<Request>, ts: seq<Transfer>, us: seq<Option<User>>) {
    && |ts| == |us|
    && (forall a, b :: 0 <= a < b < |p| ==> p[a].segment != p[b].segment)
    && (forall a :: 0 <= a < |p| ==> p[a].segment < |ts| && Waits(ts[p[a].segment], us[p[a].segment]))
    && (forall a :: 0 <= a < |p| ==>
        p[a].segment < |us| && us[p[a].segment].Some? && us[p[a].segment].value.path == p[a].path)
    && (forall i :: 0 <= i < |ts| && Waits(ts[i], us[i]) ==> exists a :: 0 <= a < |p| && p[a].segment == i)
  }

  /** The request queue is as long as the semaphore, the workers on their way to it and the boss say. */
  ghost predicate QueueInv(s: System) {
    |s.queue| == s.semCache + Total(s.workers, IsPopping) + Flag(s.boss.Posting?)
  }

  predicate Attended(t: Transfer) { !(t.worker.Waiting? || t.worker.Stopped?) }

  /** Each segment in a worker's care has exactly one worker. */
  ghost predicate ServiceOk(ws: seq<Worker>, server: seq<Option<nat>>, ts: seq<Transfer>) {
    && |server| == |ts|
    && (forall w :: 0 <= w < |ws| && ws[w].Serving? ==> ws[w].segment < |server| && server[ws[w].segment] == Some(w))
    && (forall i :: 0 <= i < |server| && server[i].Some? ==>
        server[i].value < |ws| && ws[server[i].value] == Serving(i))
    && (forall i :: 0 <= i < |server| ==> (server[i].Some? <==> Attended(ts[i])))
  }

  /** A departing worker has delivered everything, so its loop test fails. */
  ghost predicate ExitsOk(ws: seq<Worker>) {
    forall w :: 0 <= w < |ws| && ws[w].Exiting? ==> ws[w].transferred == ws[w].length
  }

  /** An answer is the cached file, or says that there is none. */
  predicate Right(cache: Cache, a: Answer) {
    && (a.path in cache ==> a.sent == cache[a.path] && a.length == |cache[a.path]|)
    && (a.path !in cache ==> a.sent == [] && a.length == 0)
  }

  ghost predicate AnswersInv(cache: Cache, s: System) {
    forall k :: 0 <= k < |s.answers| ==> Right(cache, s.answers[k])
  }

  ghost predicate SystemInv(cache: Cache, s: System) {
    && MutexOk(s.handlers, s.mutex)
    && PoolOk(s.handlers, s.free, s.holder)
    && WakeupInv(s)
    && SegmentsOk(cache, s.transfers, Users(s.handlers, s.holder))
    && PipelineOk(Pipeline(s), s.transfers, Users(s.handlers, s.holder))
    && s.posted == s.taken + Pipeline(s)
    && QueueInv(s)
    && ServiceOk(s.workers, s.server, s.transfers)
    && ExitsOk(s.workers)
    && AnswersInv(cache, s)
  }

  // ---------------------------------------------------------------- mutex and pool

  lemma {:induction false} MutexUpdate(hs: seq<Handler>, m: Option<nat>, h: nat, x: Handler, m': Option<nat>)
    requires MutexOk(hs, m) && h < |hs|
    requires if HoldsMutex(x) == HoldsMutex(hs[h]) then m' == m
             else if HoldsMutex(x) then m == None && m' == Some(h) else m' == None
    ensures MutexOk(hs[h := x], m')
  {
  }

  lemma {:induction false} KeepMutex(cache: Cache, s: System, step: Step)
    requires Enabled(s, step) && MutexOk(s.handlers, s.mutex)
    ensures MutexOk(Next(cache, s, step).handlers, Next(cache, s, step).mutex)
  {
    if HandlerStep(step) {
      var m := Next(cache, s, step).mutex;
      MutexUpdate(s.handlers, s.mutex, step.h, Moved(s, step), m);
      if step.Signal? && step.woken.Some? {
        MutexUpdate(s.handlers[step.h := Idle], m, step.woken.value, Woken(s.handlers[step.woken.value].path), m);
      }
    }
  }

  lemma {:induction false} PoolKept(hs: seq<Handler>, free: seq<nat>, holder: seq<Option<nat>>, h: nat, x: Handler)
    requires PoolOk(hs, free, holder) && h < |hs| && Segment(x) == Segment(hs[h])
    ensures PoolOk(hs[h := x], free, holder)
  {
  }

  lemma {:induction false} PoolTaken(hs: seq<Handler>, free: seq<nat>, holder: seq<Option<nat>>, h: nat, x: Handler)
    requires PoolOk(hs, free, holder) && h < |hs| && free != [] && Segment(hs[h]) == None && Segment(x) == Some(free[0])
    ensures PoolOk(hs[h := x], free[1..], holder[free[0] := Some(h)])
  {
    assert free == [free[0]] + free[1..];
  }

  lemma {:induction false} PoolGiven(hs: seq<Handler>, free: seq<nat>, holder: seq<Option<nat>>, h: nat, x: Handler)
    requires PoolOk(hs, free, holder) && h < |hs| && Segment(hs[h]).Some? && Segment(x) == None
    ensures Segment(hs[h]).value < |holder|
    ensures PoolOk(hs[h := x], free + [Segment(hs[h]).value], holder[Segment(hs[h]).value := None])
  {
  }

  lemma {:induction false} KeepPool(cache: Cache, s: System, step: Step)
    requires Enabled(s, step) && PoolOk(s.handlers, s.free, s.holder)
    ensures PoolOk(Next(cache, s, step).handlers, Next(cache, s, step).free, Next(cache, s, step).holder)
  {
    if HandlerStep(step) {
      var x := Moved(s, step);
      if step.TestPool? && s.free != [] {
        PoolTaken(s.handlers, s.free, s.holder, step.h, x);
      } else if step.ReturnSegment? {
        PoolGiven(s.handlers, s.free, s.holder, step.h, x);
      } else {
        PoolKept(s.handlers, s.free, s.holder, step.h, x);
        if step.Signal? && step.woken.Some? {
          PoolKept(s.handlers[step.h := x], s.free, s.holder, step.woken.value,
                   Woken(s.handlers[step.woken.value].path));
        }
      }
    }
  }

  lemma {:induction false} KeepWakeups(cache: Cache, s: System, step: Step)
    requires Enabled(s, step) && WakeupInv(s)
    ensures WakeupInv(Next(cache, s, step))
  {
    if HandlerStep(step) {
      var x := Moved(s, step);
      TotalUpdate(s.handlers, step.h, x, Asleep);
      TotalUpdate(s.handlers, step.h, x, Awake);
      if step.Signal? && step.woken.Some? {
        var y := Woken(s.handlers[step.woken.value].path);
        TotalUpdate(s.handlers[step.h := x], step.woken.value, y, Asleep);
        TotalUpdate(s.handlers[step.h := x], step.woken.value, y, Awake);
      }
    }
  }

  lemma {:induction false} DepartedPops(ws: seq<Worker>, w: Option<nat>, t: Transfer)
    requires w.Some? ==> w.value < |ws| && ws[w.value].Serving?
    ensures Total(Departed(ws, w, t), IsPopping) == Total(ws, IsPopping)
  {
    if w.Some? {
      TotalUpdate(ws, w.value, Exiting(t.transferred, |Content(t)|), IsPopping);
    }
  }

  lemma {:induction false} KeepQueue(cache: Cache, s: System, step: Step)
    requires Enabled(s, step) && QueueInv(s) && ServiceOk(s.workers, s.server, s.transfers)
    ensures QueueInv(Next(cache, s, step))
  {
    match step
    case CreateSegment(h) =>
      var i := s.handlers[h].seg;
      DepartedPops(s.workers, s.server[i], s.transfers[i]);
    case WorkerExit(w) => TotalUpdate(s.workers, w, Free, IsPopping);
    case WorkerWait(w) => TotalUpdate(s.workers, w, Popping, IsPopping);
    case WorkerPop(w) => TotalUpdate(s.workers, w, Serving(s.queue[0].segment), IsPopping);
    case WorkerMove(w) => TotalUpdate(s.workers, w, Free, IsPopping);
    case _ =>
  }

  // ---------------------------------------------------------------- who uses which segment

  lemma {:induction false} UsersUpdate(hs: seq<Handler>, free: seq<nat>, holder: seq<Option<nat>>, h: nat, x: Handler)
    requires PoolOk(hs, free, holder) && h < |hs| && Segment(x) == Segment(hs[h])
    ensures Segment(x).None? ==> Users(hs[h := x], holder) == Users(hs, holder)
    ensures Segment(x).Some? ==> Segment(x).value < |holder|
                                 && Users(hs[h := x], holder) == Users(hs, holder)[Segment(x).value := UserOf(x)]
  {
  }

  /** Taking a segment from the pool or giving it back leaves it without a user. */
  lemma {:induction false} UsersPool(hs: seq<Handler>, free: seq<nat>, holder: seq<Option<nat>>, h: nat, x: Handler,
                                     i: nat, o: Option<nat>)
    requires PoolOk(hs, free, holder) && h < |hs| && i < |holder|
    requires !Active(hs[h]) && !Active(x) && (o == None || o == Some(h))
    requires holder[i] == None || holder[i] == Some(h)
    ensures Users(hs[h := x], holder[i := o]) == Users(hs, holder)
  {
  }

  /** The segment whose user a step may change. */
  function Touched(s: System, step: Step): Option<nat>
    requires Enabled(s, step)
  {
    if HandlerStep(step) && !step.TestPool? && !step.ReturnSegment? then Segment(s.handlers[step.h]) else None
  }

  lemma {:induction false} UsersAfter(cache: Cache, s: System, step: Step)
    requires Enabled(s, step) && PoolOk(s.handlers, s.free, s.holder)
    ensures var us, us' := Users(s.handlers, s.holder),
            Users(Next(cache, s, step).handlers, Next(cache, s, step).holder);
            if Touched(s, step).Some?
            then Touched(s, step).value < |us| && us' == us[Touched(s, step).value := UserOf(Moved(s, step))]
            else us' == us
  {
    if HandlerStep(step) {
      var x, h := Moved(s, step), step.h;
      if step.TestPool? {
        if s.free != [] {
          UsersPool(s.handlers, s.free, s.holder, h, x, s.free[0], Some(h));
        } else {
          UsersUpdate(s.handlers, s.free, s.holder, h, x);
        }
      } else if step.ReturnSegment? {
        UsersPool(s.handlers, s.free, s.holder, h, x, s.handlers[h].seg, None);
      } else {
        UsersUpdate(s.handlers, s.free, s.holder, h, x);
        if step.Signal? && step.woken.Some? {
          PoolKept(s.handlers, s.free, s.holder, h, x);
          UsersUpdate(s.handlers[h := x], s.free, s.holder, step.woken.value, Woken(s.handlers[step.woken.value].path));
        }
      }
    }
  }

  // ---------------------------------------------------------------- segments

  lemma {:induction false} UserIs(s: System, h: nat)
    requires h < |s.handlers| && PoolOk(s.handlers, s.free, s.holder) && Segment(s.handlers[h]).Some?
    ensures var i := Segment(s.handlers[h]).value;
            i < |s.holder| && Users(s.handlers, s.holder)[i] == UserOf(s.handlers[h])
  {
  }

  lemma {:induction false} AttendKeepsInv(t: Transfer)
    requires Inv(t) && t.worker.Waiting?
    ensures Inv(t.(worker := WriteLength))
  {
  }

  lemma {:induction false} CreateSuits(cache: Cache, t: Transfer, path: Path)
    requires Inv(t)
    ensures SegmentOk(cache, Created(Lookup(cache, path), t.buffer), Some(User(path, false)))
  {
    CreatedInv(Lookup(cache, path), t.buffer);
  }

  lemma {:induction false} MoveSuits(cache: Cache, t: Transfer, user: Option<User>)
    requires SegmentOk(cache, t, user) && HandlerEnabled(t)
    ensures SegmentOk(cache, HandlerNext(t), user)
  {
    HandlerStepKeepsInv(t);
  }

  lemma {:induction false} AttendSuits(cache: Cache, t: Transfer, user: Option<User>)
    requires SegmentOk(cache, t, user) && Waits(t, user)
    ensures SegmentOk(cache, t.(file := Lookup(cache, user.value.path), worker := WriteLength), user)
  {
    AttendKeepsInv(t);
  }

  lemma {:induction false} WorkSuits(cache: Cache, t: Transfer, user: Option<User>)
    requires SegmentOk(cache, t, user) && WorkerEnabled(t)
    ensures SegmentOk(cache, WorkerNext(t), user)
  {
    WorkerStepKeepsInv(t);
  }

  lemma {:induction false} StandSuits(cache: Cache, t: Transfer, user: Option<User>, user': Option<User>)
    requires SegmentOk(cache, t, user)
    requires user.Some? && user'.Some? ==>
             user.value.path == user'.value.path && (user.value.dispatched ==> user'.value.dispatched)
    requires user'.None? ==> t.handler.Finished?
    requires user.None? ==> user'.None?
    ensures SegmentOk(cache, t, user')
  {
  }

  /** What a handler's step does to the transfer of the segment it touches. */
  lemma {:induction false} HandlerStepSuits(cache: Cache, s: System, step: Step, t: Transfer)
    requires Enabled(s, step) && HandlerStep(step) && Touched(s, step).Some? && Touched(s, step).value < |s.transfers|
    requires t == s.transfers[Touched(s, step).value] && SegmentOk(cache, t, UserOf(s.handlers[step.h]))
    ensures SegmentOk(cache, Next(cache, s, step).transfers[Touched(s, step).value], UserOf(Moved(s, step)))
  {
    if step.CreateSegment? {
      CreateSuits(cache, t, s.handlers[step.h].path);
    } else if step.HandlerMove? {
      MoveSuits(cache, t, UserOf(s.handlers[step.h]));
    } else {
      StandSuits(cache, t, UserOf(s.handlers[step.h]), UserOf(Moved(s, step)));
    }
  }

  lemma {:induction false} SegmentsUpdate(cache: Cache, ts: seq<Transfer>, us: seq<Option<User>>, i: nat, t: Transfer,
                                          u: Option<User>)
    requires SegmentsOk(cache, ts, us) && i < |ts| && SegmentOk(cache, t, u)
    ensures SegmentsOk(cache, ts[i := t], us[i := u])
  {
  }

  lemma {:induction false} HandlerKeepsSegments(cache: Cache, s: System, step: Step)
    requires Enabled(s, step) && HandlerStep(step) && PoolOk(s.handlers, s.free, s.holder)
    requires SegmentsOk(cache, s.transfers, Users(s.handlers, s.holder))
    ensures SegmentsOk(cache, Next(cache, s, step).transfers,
                       Users(Next(cache, s, step).handlers, Next(cache, s, step).holder))
  {
    UsersAfter(cache, s, step);
    if Touched(s, step).Some? {
      var i, u := Touched(s, step).value, Next(cache, s, step);
      UserIs(s, step.h);
      HandlerStepSuits(cache, s, step, s.transfers[i]);
      SegmentsUpdate(cache, s.transfers, Users(s.handlers, s.holder), i, u.transfers[i], UserOf(Moved(s, step)));
      assert u.transfers == s.transfers[i := u.transfers[i]];
    }
  }

  lemma {:induction false} WorkerKeepsSegments(cache: Cache, s: System, step: Step)
    requires Enabled(s, step) && !HandlerStep(step)
    requires SegmentsOk(cache, s.transfers, Users(s.handlers, s.holder))
    requires PipelineOk(Pipeline(s), s.transfers, Users(s.handlers, s.holder))
    ensures SegmentsOk(cache, Next(cache, s, step).transfers,
                       Users(Next(cache, s, step).handlers, Next(cache, s, step).holder))
  {
    var us, u := Users(s.handlers, s.holder), Next(cache, s, step);
    if step.WorkerPop? {
      var i := s.queue[0].segment;
      assert Pipeline(s)[0] == s.queue[0];
      AttendSuits(cache, s.transfers[i], us[i]);
      SegmentsUpdate(cache, s.transfers, us, i, u.transfers[i], us[i]);
      assert us[i := us[i]] == us;
    } else if step.WorkerMove? {
      var i := s.workers[step.w].segment;
      WorkSuits(cache, s.transfers[i], us[i]);
      SegmentsUpdate(cache, s.transfers, us, i, u.transfers[i], us[i]);
      assert us[i := us[i]] == us;
    }
  }

  // ---------------------------------------------------------------- the pipeline

  /** A change that does not touch whether and for what a segment waits. */
  lemma {:induction false} PipelineKept(p: seq<Request>, ts: seq<Transfer>, us: seq<Option<User>>, i: nat, t: Transfer,
                                        u: Option<User>)
    requires PipelineOk(p, ts, us) && i < |ts|
    requires Waits(t, u) == Waits(ts[i], us[i]) && (Waits(t, u) ==> u.value.path == us[i].value.path)
    ensures PipelineOk(p, ts[i := t], us[i := u])
  {
    var ts', us' := ts[i := t], us[i := u];
    forall k | 0 <= k < |ts| && Waits(ts'[k], us'[k]) ensures exists a :: 0 <= a < |p| && p[a].segment == k {
      assert Waits(ts[k], us[k]);
    }
  }

  lemma {:induction false} PipelineGrows(p: seq<Request>, ts: seq<Transfer>, us: seq<Option<User>>, r: Request,
                                         u: Option<User>)
    requires PipelineOk(p, ts, us) && r.segment < |ts|
    requires !Waits(ts[r.segment], us[r.segment]) && Waits(ts[r.segment], u) && u.value.path == r.path
    ensures PipelineOk(p + [r], ts, us[r.segment := u])
  {
    var q, vs := p + [r], us[r.segment := u];
    forall k | 0 <= k < |ts| && Waits(ts[k], vs[k]) ensures exists a :: 0 <= a < |q| && q[a].segment == k {
      if k == r.segment {
        assert q[|p|].segment == k;
      } else {
        var a :| 0 <= a < |p| && p[a].segment == k;
        assert q[a].segment == k;
      }
    }
  }

  lemma {:induction false} PipelineShrinks(p: seq<Request>, ts: seq<Transfer>, us: seq<Option<User>>, t: Transfer)
    requires PipelineOk(p, ts, us) && p != [] && !t.worker.Waiting?
    ensures PipelineOk(p[1..], ts[p[0].segment := t], us)
  {
    var i, q := p[0].segment, p[1..];
    var ts' := ts[i := t];
    forall k | 0 <= k < |ts| && Waits(ts'[k], us[k]) ensures exists a :: 0 <= a < |q| && q[a].segment == k {
      var a :| 0 <= a < |p| && p[a].segment == k;
      assert q[a - 1].segment == k;
    }
  }

  lemma {:induction false} AppendLast<T>(a: seq<T>, b: seq<T>, x: T)
    ensures a + (b + [x]) == (a + b) + [x]
  {
  }

  lemma {:induction false} MoveFirst<T>(a: seq<T>, b: seq<T>)
    requires b != []
    ensures a + b == (a + [b[0]]) + b[1..]
  {
  }

  lemma {:induction false} DropFirst<T>(a: seq<T>, b: seq<T>)
    requires a != []
    ensures (a + b)[0] == a[0] && (a + b)[1..] == a[1..] + b
  {
  }

  lemma {:induction false} PipelineAfter(cache: Cache, s: System, step: Step)
    requires Enabled(s, step)
    ensures Pipeline(Next(cache, s, step)) ==
            if step.SendRequest? then Pipeline(s) + [Request(s.handlers[step.h].path, s.handlers[step.h].seg)]
            else if step.WorkerPop? then Pipeline(s)[1..]
            else Pipeline(s)
    ensures step.WorkerPop? ==> Pipeline(s) != [] && Pipeline(s)[0] == s.queue[0]
  {
    var q, h, m := s.queue, Hand(s.boss), s.mq;
    match step
    case SendRequest(_) => AppendLast(q + h, m, Request(s.handlers[step.h].path, s.handlers[step.h].seg));
    case BossRead => MoveFirst(q, m); assert q + [] == q; assert Pipeline(s) == q + m;
    case BossEnqueue => assert (q + h) + [] == q + h;
    case WorkerPop(_) => DropFirst(q, h); DropFirst(q + h, m);
    case _ =>
  }

  /** Requests are taken in the order in which they were posted. */
  lemma {:induction false} KeepOrder(cache: Cache, s: System, step: Step)
    requires Enabled(s, step) && s.posted == s.taken + Pipeline(s)
    ensures Next(cache, s, step).posted == Next(cache, s, step).taken + Pipeline(Next(cache, s, step))
  {
    PipelineAfter(cache, s, step);
    if step.SendRequest? {
      AppendLast(s.taken, Pipeline(s), Request(s.handlers[step.h].path, s.handlers[step.h].seg));
    } else if step.WorkerPop? {
      MoveFirst(s.taken, Pipeline(s));
    }
  }

  lemma {:induction false} SendGrows(cache: Cache, p: seq<Request>, ts: seq<Transfer>, us: seq<Option<User>>,
                                     r: Request)
    requires PipelineOk(p, ts, us) && SegmentsOk(cache, ts, us)
    requires r.segment < |us| && us[r.segment] == Some(User(r.path, false))
    ensures PipelineOk(p + [r], ts, us[r.segment := Some(User(r.path, true))])
  {
    assert SegmentOk(cache, ts[r.segment], us[r.segment]);
    PipelineGrows(p, ts, us, r, Some(User(r.path, true)));
  }

  lemma {:induction false} SendKeepsPipeline(cache: Cache, s: System, h: nat)
    requires Enabled(s, SendRequest(h)) && PoolOk(s.handlers, s.free, s.holder)
    requires SegmentsOk(cache, s.transfers, Users(s.handlers, s.holder))
    requires PipelineOk(Pipeline(s), s.transfers, Users(s.handlers, s.holder))
    ensures var u := Next(cache, s, SendRequest(h)); PipelineOk(Pipeline(u), u.transfers, Users(u.handlers, u.holder))
  {
    var us, x := Users(s.handlers, s.holder), s.handlers[h];
    var r := Request(x.path, x.seg);
    UsersAfter(cache, s, SendRequest(h));
    PipelineAfter(cache, s, SendRequest(h));
    UserIs(s, h);
    SendGrows(cache, Pipeline(s), s.transfers, us, r);
  }

  lemma {:induction false} HandlerKeepsPipeline(cache: Cache, s: System, step: Step)
    requires Enabled(s, step) && HandlerStep(step) && !step.SendRequest? && PoolOk(s.handlers, s.free, s.holder)
    requires SegmentsOk(cache, s.transfers, Users(s.handlers, s.holder))
    requires PipelineOk(Pipeline(s), s.transfers, Users(s.handlers, s.holder))
    ensures var u := Next(cache, s, step); PipelineOk(Pipeline(u), u.transfers, Users(u.handlers, u.holder))
  {
    var us := Users(s.handlers, s.holder);
    UsersAfter(cache, s, step);
    PipelineAfter(cache, s, step);
    if Touched(s, step).Some? {
      var i, t := TouchedKeepsWaiting(cache, s, step);
      PipelineKept(Pipeline(s), s.transfers, us, i, t, UserOf(Moved(s, step)));
    }
  }

  lemma {:induction false} TouchedKeepsWaiting(cache: Cache, s: System, step: Step) returns (i: nat, t: Transfer)
    requires Enabled(s, step) && HandlerStep(step) && !step.SendRequest? && PoolOk(s.handlers, s.free, s.holder)
    requires SegmentsOk(cache, s.transfers, Users(s.handlers, s.holder)) && Touched(s, step).Some?
    ensures i == Touched(s, step).value < |s.transfers| && Next(cache, s, step).transfers == s.transfers[i := t]
    ensures var us, u := Users(s.handlers, s.holder), UserOf(Moved(s, step));
            Waits(t, u) == Waits(s.transfers[i], us[i]) && (Waits(t, u) ==> u.value.path == us[i].value.path)
  {
    i := Touched(s, step).value;
    UserIs(s, step.h);
    t := Next(cache, s, step).transfers[i];
    TouchedWaits(cache, s, step, s.transfers[i]);
    assert s.transfers[i := s.transfers[i]] == s.transfers;
  }

  lemma {:induction false} TouchedWaits(cache: Cache, s: System, step: Step, t: Transfer)
    requires Enabled(s, step) && HandlerStep(step) && !step.SendRequest?
    requires Touched(s, step).Some? && Touched(s, step).value < |s.transfers|
    requires t == s.transfers[Touched(s, step).value] && SegmentOk(cache, t, UserOf(s.handlers[step.h]))
    ensures var t', u, u' := Next(cache, s, step).transfers[Touched(s, step).value], UserOf(s.handlers[step.h]),
            UserOf(Moved(s, step));
            Waits(t', u') == Waits(t, u) && (Waits(t, u) ==> u'.value.path == u.value.path)
  {
  }

  lemma {:induction false} WorkerKeepsPipeline(cache: Cache, s: System, step: Step)
    requires Enabled(s, step) && !HandlerStep(step)
    requires PipelineOk(Pipeline(s), s.transfers, Users(s.handlers, s.holder))
    ensures var u := Next(cache, s, step); PipelineOk(Pipeline(u), u.transfers, Users(u.handlers, u.holder))
  {
    var us, u := Users(s.handlers, s.holder), Next(cache, s, step);
    PipelineAfter(cache, s, step);
    if step.WorkerPop? {
      PipelineShrinks(Pipeline(s), s.transfers, us, u.transfers[s.queue[0].segment]);
    } else if step.WorkerMove? {
      var i := s.workers[step.w].segment;
      PipelineKept(Pipeline(s), s.transfers, us, i, u.transfers[i], us[i]);
      assert us[i := us[i]] == us;
    }
  }

  // ---------------------------------------------------------------- workers

  lemma {:induction false} ServiceKept(ws: seq<Worker>, server: seq<Option<nat>>, ts: seq<Transfer>, i: nat,
                                       t: Transfer)
    requires ServiceOk(ws, server, ts) && i < |ts| && Attended(t) == Attended(ts[i])
    ensures ServiceOk(ws, server, ts[i := t])
  {
  }

  lemma {:induction false} ServiceIdle(ws: seq<Worker>, server: seq<Option<nat>>, ts: seq<Transfer>, w: nat, x: Worker)
    requires ServiceOk(ws, server, ts) && w < |ws| && !ws[w].Serving? && !x.Serving?
    ensures ServiceOk(ws[w := x], server, ts)
  {
  }

  lemma {:induction false} ServiceBegins(ws: seq<Worker>, server: seq<Option<nat>>, ts: seq<Transfer>, w: nat, i: nat,
                                         t: Transfer)
    requires ServiceOk(ws, server, ts) && w < |ws| && i < |ts| && !ws[w].Serving? && !Attended(ts[i]) && Attended(t)
    ensures ServiceOk(ws[w := Serving(i)], server[i := Some(w)], ts[i := t])
  {
  }

  lemma {:induction false} ServiceEnds(ws: seq<Worker>, server: seq<Option<nat>>, ts: seq<Transfer>, w: nat, i: nat,
                                       t: Transfer, x: Worker)
    requires ServiceOk(ws, server, ts) && w < |ws| && i < |ts| && ws[w] == Serving(i) && !Attended(t) && !x.Serving?
    ensures ServiceOk(ws[w := x], server[i := None], ts[i := t])
  {
  }

  lemma {:induction false} CreateKeepsService(cache: Cache, s: System, h: nat)
    requires Enabled(s, CreateSegment(h)) && ServiceOk(s.workers, s.server, s.transfers)
    ensures var u := Next(cache, s, CreateSegment(h)); ServiceOk(u.workers, u.server, u.transfers)
  {
    var i := s.handlers[h].seg;
    var t, last := Next(cache, s, CreateSegment(h)).transfers[i], s.transfers[i];
    if s.server[i].Some? {
      ServiceEnds(s.workers, s.server, s.transfers, s.server[i].value, i, t,
                  Exiting(last.transferred, |Content(last)|));
    } else {
      ServiceKept(s.workers, s.server, s.transfers, i, t);
      assert s.server[i := None] == s.server;
    }
  }

  lemma {:induction false} HandlerKeepsService(cache: Cache, s: System, step: Step)
    requires Enabled(s, step) && HandlerStep(step) && ServiceOk(s.workers, s.server, s.transfers)
    ensures ServiceOk(Next(cache, s, step).workers, Next(cache, s, step).server, Next(cache, s, step).transfers)
  {
    if step.CreateSegment? {
      CreateKeepsService(cache, s, step.h);
    } else if step.HandlerMove? {
      var i := s.handlers[step.h].seg;
      ServiceKept(s.workers, s.server, s.transfers, i, Next(cache, s, step).transfers[i]);
    }
  }

  lemma {:induction false} WorkerKeepsService(cache: Cache, s: System, step: Step)
    requires Enabled(s, step) && !HandlerStep(step) && ServiceOk(s.workers, s.server, s.transfers)
    requires PipelineOk(Pipeline(s), s.transfers, Users(s.handlers, s.holder))
    ensures ServiceOk(Next(cache, s, step).workers, Next(cache, s, step).server, Next(cache, s, step).transfers)
  {
    var u := Next(cache, s, step);
    if step.WorkerWait? {
      ServiceIdle(s.workers, s.server, s.transfers, step.w, Popping);
    } else if step.WorkerExit? {
      ServiceIdle(s.workers, s.server, s.transfers, step.w, Free);
    } else if step.WorkerPop? {
      var i := s.queue[0].segment;
      assert Pipeline(s)[0] == s.queue[0];
      ServiceBegins(s.workers, s.server, s.transfers, step.w, i, u.transfers[i]);
    } else if step.WorkerMove? {
      var i := s.workers[step.w].segment;
      if u.transfers[i].worker.Stopped? {
        ServiceEnds(s.workers, s.server, s.transfers, step.w, i, u.transfers[i], Free);
      } else {
        ServiceKept(s.workers, s.server, s.transfers, i, u.transfers[i]);
      }
    }
  }

  /** A worker that departs has been found past its last token. */
  lemma {:induction false} KeepExits(cache: Cache, s: System, step: Step)
    requires Enabled(s, step) && PoolOk(s.handlers, s.free, s.holder) && ExitsOk(s.workers)
    requires SegmentsOk(cache, s.transfers, Users(s.handlers, s.holder))
    ensures ExitsOk(Next(cache, s, step).workers)
  {
    if step.CreateSegment? {
      var i := s.handlers[step.h].seg;
      UserIs(s, step.h);
      assert SegmentOk(cache, s.transfers[i], Users(s.handlers, s.holder)[i]);
      WorkerAfterHandler(s.transfers[i]);
    }
  }

  // ---------------------------------------------------------------- answers

  lemma {:induction false} KeepAnswers(cache: Cache, s: System, step: Step)
    requires Enabled(s, step) && PoolOk(s.handlers, s.free, s.holder) && AnswersInv(cache, s)
    requires SegmentsOk(cache, s.transfers, Users(s.handlers, s.holder))
    ensures AnswersInv(cache, Next(cache, s, step))
  {
    if step.Leave? {
      var i := s.handlers[step.h].seg;
      UserIs(s, step.h);
      assert SegmentOk(cache, s.transfers[i], Users(s.handlers, s.holder)[i]);
      FinishedDelivers(s.transfers[i]);
    }
  }

  lemma {:induction false} StepKeepsShared(cache: Cache, s: System, step: Step)
    requires SystemInv(cache, s) && Enabled(s, step)
    ensures var u := Next(cache, s, step);
            && MutexOk(u.handlers, u.mutex) && PoolOk(u.handlers, u.free, u.holder) && WakeupInv(u)
            && u.posted == u.taken + Pipeline(u) && QueueInv(u) && AnswersInv(cache, u) && ExitsOk(u.workers)
  {
    KeepMutex(cache, s, step);
    KeepPool(cache, s, step);
    KeepWakeups(cache, s, step);
    KeepQueue(cache, s, step);
    KeepAnswers(cache, s, step);
    KeepExits(cache, s, step);
    KeepOrder(cache, s, step);
  }

  lemma {:induction false} StepKeepsSegments(cache: Cache, s: System, step: Step)
    requires SystemInv(cache, s) && Enabled(s, step)
    ensures var u := Next(cache, s, step);
            && SegmentsOk(cache, u.transfers, Users(u.handlers, u.holder))
            && PipelineOk(Pipeline(u), u.transfers, Users(u.handlers, u.holder))
            && ServiceOk(u.workers, u.server, u.transfers)
  {
    if HandlerStep(step) {
      HandlerKeepsSegments(cache, s, step);
      if step.SendRequest? {
        SendKeepsPipeline(cache, s, step.h);
      } else {
        HandlerKeepsPipeline(cache, s, step);
      }
      HandlerKeepsService(cache, s, step);
    } else {
      WorkerKeepsSegments(cache, s, step);
      WorkerKeepsPipeline(cache, s, step);
      WorkerKeepsService(cache, s, step);
    }
  }

  /** Every step of every thread keeps the invariant of the whole system. */
  lemma {:induction false} StepKeepsInv(cache: Cache, s: System, step: Step)
    requires SystemInv(cache, s) && Enabled(s, step)
    ensures SystemInv(cache, Next(cache, s, step))
  {
    StepKeepsShared(cache, s, step);
    StepKeepsSegments(cache, s, step);
  }
}
