/**
 The asynchronous listeners of the DFS server: the CallData instances, the threads that
 drive them from one completion queue, and the queue of tags that the processor thread
 registers with the gRPC runtime.
 */
module CallData {
  import opened Totals

  datatype CallStatus = CREATE | PROCESS | FINISH

  /** Where an instance is; kept beside its status to state what the status stands for. */
  datatype Phase =
    | Fresh(thread: nat)      // constructed, not yet queued
    | Queued                  // in queued_tags
    | Listening               // registered with the runtime, waiting for a client
    | Called                  // a client has called, the event is in the completion queue
    | Taken(thread: nat)      // a thread has the event and is about to act on it
    | Serving(thread: nat)    // a successor has been created, the reply is being made
    | Replying                // Finish has been called
    | Replied                 // its event is in the completion queue
    | Ending(thread: nat)     // a thread has that event
    | Gone                    // deleted

  datatype Instance = Instance(status: CallStatus, phase: Phase, registered: nat, finished: nat, deleted: nat)

  datatype Entry = Entry(tag: nat, finished: bool)

  datatype Thread = NotStarted | Creating(id: nat) | Polling | Proceed(id: nat) | Spawning(id: nat, successor: nat)
    | Process(id: nat)

  datatype Processor = Away | At(index: nat)

  datatype State = State(
    instances: seq<Instance>, threads: seq<Thread>,
    tags: seq<Entry>, processor: Processor,            // queued_tags; the mutex is held unless Away
    listening: set<nat>, replying: set<nat>,           // operations pending in the runtime
    events: multiset<nat>)                             // the completion queue

  datatype Step =
    | Start(t: nat)
    | Enqueue(t: nat)
    | Take(t: nat, id: nat)
    | Act(t: nat)
    | Reply(t: nat)
    | ClientCall(id: nat)
    | ReplyDone(id: nat)
    | EnterGuard
    | RegisterNext
    | LeaveGuard

  /** A new instance, in the hands of the thread that runs its constructor. */
  function Constructed(t: nat): Instance {
    Instance(CREATE, Fresh(t), 0, 0, 0)
  }

  predicate Enabled(s: State, step: Step) {
    match step
    case Start(t) => t < |s.threads| && s.threads[t].NotStarted?
    case Enqueue(t) => t < |s.threads| && (s.threads[t].Creating? || s.threads[t].Spawning?) && s.processor.Away?
    case Take(t, id) => t < |s.threads| && s.threads[t].Polling? && id in s.events
    case Act(t) => t < |s.threads| && s.threads[t].Proceed?
    case Reply(t) => t < |s.threads| && s.threads[t].Process?
    case ClientCall(id) => id in s.listening
    case ReplyDone(id) => id in s.replying
    case EnterGuard => s.processor.Away?
    case RegisterNext => s.processor.At? && s.processor.index < |s.tags|
    case LeaveGuard => s.processor.At? && s.processor.index >= |s.tags|
  }

  /** Everything that names an instance names one that has been constructed. */
  ghost predicate Tidy(s: State) {
    var n := |s.instances|;
    && (forall t :: 0 <= t < |s.threads| ==>
          match s.threads[t]
          case Creating(id) => id < n
          case Proceed(id) => id < n
          case Spawning(id, successor) => id < n && successor < n && id != successor
          case Process(id) => id < n
          case _ => true)
    && (forall k :: 0 <= k < |s.tags| ==> s.tags[k].tag < n)
    && (forall id :: id in s.listening || id in s.replying || id in s.events ==> id < n)
  }

  function Unfinished(tags: seq<Entry>): seq<Entry> {
    if tags == [] then [] else (if tags[0].finished then [] else [tags[0]]) + Unfinished(tags[1..])
  }

  function Next(s: State, step: Step): State
    requires Tidy(s) && Enabled(s, step)
  {
    var xs := s.instances;
    match step
    case Start(t) => s.(instances := xs + [Constructed(t)], threads := s.threads[t := Creating(|xs|)])
    case Enqueue(t) =>
      var id := if s.threads[t].Creating? then s.threads[t].id else s.threads[t].successor;
      s.(instances := xs[id := xs[id].(status := PROCESS, phase := Queued)],
         tags := s.tags + [Entry(id, false)],
         threads := s.threads[t := if s.threads[t].Creating? then Polling else Process(s.threads[t].id)])
    case Take(t, id) =>
      s.(instances := xs[id := xs[id].(phase := if xs[id].status.FINISH? then Ending(t) else Taken(t))],
         events := s.events - multiset{id}, threads := s.threads[t := Proceed(id)])
    case Act(t) =>
      var id := s.threads[t].id;
      (match xs[id].status
       case CREATE => s.(instances := xs[id := xs[id].(phase := Fresh(t))], threads := s.threads[t := Creating(id)])
       case PROCESS =>
         s.(instances := xs[id := xs[id].(phase := Serving(t))] + [Constructed(t)],
            threads := s.threads[t := Spawning(id, |xs|)])
       case FINISH =>
         s.(instances := xs[id := xs[id].(phase := Gone, deleted := xs[id].deleted + 1)],
            threads := s.threads[t := Polling]))
    case Reply(t) =>
      var id := s.threads[t].id;
      s.(instances := xs[id := xs[id].(status := FINISH, phase := Replying, finished := xs[id].finished + 1)],
         replying := s.replying + {id}, threads := s.threads[t := Polling])
    case ClientCall(id) =>
      s.(instances := xs[id := xs[id].(phase := Called)], listening := s.listening - {id},
         events := s.events + multiset{id})
    case ReplyDone(id) =>
      s.(instances := xs[id := xs[id].(phase := Replied)], replying := s.replying - {id},
         events := s.events + multiset{id})
    case EnterGuard => s.(processor := At(0))
    case RegisterNext =>
      var k := s.processor.index;
      var id := s.tags[k].tag;
      s.(instances := xs[id := xs[id].(phase := Listening, registered := xs[id].registered + 1)],
         listening := s.listening + {id}, tags := s.tags[k := s.tags[k].(finished := true)], processor := At(k + 1))
    case LeaveGuard => s.(tags := Unfinished(s.tags), processor := Away)
  }

  // ---------------------------------------------------------------- the invariant

  /** What the status and the counters say about where an instance is. */
  predicate InstanceOk(x: Instance) {
    && (x.status.CREATE? <==> x.phase.Fresh?)
    && (x.status.FINISH? <==> x.phase.Replying? || x.phase.Replied? || x.phase.Ending? || x.phase.Gone?)
    && x.registered == (if x.phase.Fresh? || x.phase.Queued? then 0 else 1)
    && x.finished == (if x.status.FINISH? then 1 else 0)
    && x.deleted == (if x.phase.Gone? then 1 else 0)
  }

  ghost predicate InstancesOk(xs: seq<Instance>) {
    forall id :: 0 <= id < |xs| ==> InstanceOk(xs[id])
  }

  predicate InQueue(x: Instance) { x.phase.Called? || x.phase.Replied? }

  ghost predicate RuntimeOk(xs: seq<Instance>, listening: set<nat>, replying: set<nat>, events: multiset<nat>) {
    && (forall id :: id in listening <==> 0 <= id < |xs| && xs[id].phase.Listening?)
    && (forall id :: id in replying <==> 0 <= id < |xs| && xs[id].phase.Replying?)
    && (forall id :: id in events ==> 0 <= id < |xs|)
    && (forall id :: 0 <= id < |xs| ==> events[id] == if InQueue(xs[id]) then 1 else 0)
  }

  /** What a thread has in its hands. */
  predicate ThreadOk(xs: seq<Instance>, t: nat, pc: Thread) {
    match pc
    case Creating(id) => id < |xs| && xs[id].phase == Fresh(t)
    case Proceed(id) => id < |xs| && (xs[id].phase == Taken(t) || xs[id].phase == Ending(t))
    case Spawning(id, successor) =>
      id < |xs| && successor < |xs| && xs[id].phase == Serving(t) && xs[successor].phase == Fresh(t)
    case Process(id) => id < |xs| && xs[id].phase == Serving(t)
    case _ => true
  }

  ghost predicate ThreadsOk(xs: seq<Instance>, ts: seq<Thread>) {
    forall t :: 0 <= t < |ts| ==> ThreadOk(xs, t, ts[t])
  }

  /** An instance in some thread's hands is what that thread is working on. */
  predicate HeldOk(ts: seq<Thread>, id: nat, x: Instance) {
    match x.phase
    case Fresh(t) => t < |ts| && (ts[t] == Creating(id) || (ts[t].Spawning? && ts[t].successor == id))
    case Taken(t) => t < |ts| && ts[t] == Proceed(id)
    case Ending(t) => t < |ts| && ts[t] == Proceed(id)
    case Serving(t) => t < |ts| && ((ts[t].Spawning? && ts[t].id == id) || ts[t] == Process(id))
    case _ => true
  }

  ghost predicate HandsOk(xs: seq<Instance>, ts: seq<Thread>) {
    forall id :: 0 <= id < |xs| ==> HeldOk(ts, id, xs[id])
  }

  predicate IsQueuedAt(tags: seq<Entry>, id: nat, k: nat) {
    k < |tags| && tags[k].tag == id && !tags[k].finished
  }

  /** The unfinished entries are the queued instances, once each. */
  ghost predicate TagsOk(xs: seq<Instance>, tags: seq<Entry>) {
    && (forall k :: 0 <= k < |tags| ==> tags[k].tag < |xs|)
    && (forall k :: 0 <= k < |tags| && !tags[k].finished ==> xs[tags[k].tag].phase.Queued?)
    && (forall j, k :: 0 <= j < k < |tags| && !tags[j].finished && !tags[k].finished ==> tags[j].tag != tags[k].tag)
    && (forall id :: 0 <= id < |xs| && xs[id].phase.Queued? ==> exists k :: IsQueuedAt(tags, id, k))
  }

  /** While the processor is inside its guard, the entries before it are finished and no others. */
  ghost predicate ProcessorOk(tags: seq<Entry>, p: Processor) {
    && (p.At? ==> p.index <= |tags|)
    && (forall k :: 0 <= k < |tags| ==> (tags[k].finished <==> p.At? && k < p.index))
  }

  function Awaits(x: Instance): nat {
    if x.phase.Fresh? || x.phase.Queued? || x.phase.Listening? || x.phase.Called? || x.phase.Taken? then 1 else 0
  }

  function Started(pc: Thread): nat {
    if pc.NotStarted? then 0 else 1
  }

  ghost predicate Core(s: State) {
    && InstancesOk(s.instances)
    && RuntimeOk(s.instances, s.listening, s.replying, s.events)
    && ThreadsOk(s.instances, s.threads)
    && HandsOk(s.instances, s.threads)
    && TagsOk(s.instances, s.tags)
    && ProcessorOk(s.tags, s.processor)
    && Total(s.instances, Awaits) == Total(s.threads, Started)
  }

  ghost predicate Inv(s: State) {
    Tidy(s) && Core(s)
  }

  lemma {:induction false} CoreIsTidy(s: State)
    requires Core(s)
    ensures Tidy(s)
  {
    forall t | 0 <= t < |s.threads| && s.threads[t].Spawning? ensures s.threads[t].id != s.threads[t].successor {
      assert ThreadOk(s.instances, t, s.threads[t]);
    }
    forall t | 0 <= t < |s.threads| ensures ThreadOk(s.instances, t, s.threads[t]) {
    }
  }

  // ---------------------------------------------------------------- one instance changes

  predicate Held(p: Phase) {
    p.Fresh? || p.Taken? || p.Serving? || p.Ending?
  }

  /** The instance is in nobody's hands but thread t's. */
  predicate OnlyIn(p: Phase, t: nat) {
    Held(p) ==> p.thread == t
  }

  lemma {:induction false} RuntimeSet(xs: seq<Instance>, listening: set<nat>, replying: set<nat>, events: multiset<nat>,
                                      id: nat, x: Instance)
    requires RuntimeOk(xs, listening, replying, events) && id < |xs|
    ensures RuntimeOk(xs[id := x],
                      if x.phase.Listening? then listening + {id} else listening - {id},
                      if x.phase.Replying? then replying + {id} else replying - {id},
                      events[id := if InQueue(x) then 1 else 0])
  {
  }

  lemma {:induction false} RuntimeAppend(xs: seq<Instance>, listening: set<nat>, replying: set<nat>,
                                         events: multiset<nat>, x: Instance)
    requires RuntimeOk(xs, listening, replying, events) && x.phase.Fresh?
    ensures RuntimeOk(xs + [x], listening, replying, events)
  {
    assert |xs| !in events;
  }

  lemma {:induction false} ThreadsSet(xs: seq<Instance>, ts: seq<Thread>, id: nat, x: Instance, t: nat, pc: Thread)
    requires ThreadsOk(xs, ts) && id < |xs| && t < |ts|
    requires OnlyIn(xs[id].phase, t) && ThreadOk(xs[id := x], t, pc)
    ensures ThreadsOk(xs[id := x], ts[t := pc])
  {
    forall u | 0 <= u < |ts| && u != t ensures ThreadOk(xs[id := x], u, ts[u]) {
      assert ThreadOk(xs, u, ts[u]);
    }
  }

  /** The runtime or the processor changes an instance that no thread holds. */
  lemma {:induction false} ThreadsKept(xs: seq<Instance>, ts: seq<Thread>, id: nat, x: Instance)
    requires ThreadsOk(xs, ts) && id < |xs| && !Held(xs[id].phase)
    ensures ThreadsOk(xs[id := x], ts)
  {
    forall u | 0 <= u < |ts| ensures ThreadOk(xs[id := x], u, ts[u]) {
      assert ThreadOk(xs, u, ts[u]);
    }
  }

  lemma {:induction false} ThreadsAppend(xs: seq<Instance>, ts: seq<Thread>, x: Instance, t: nat, pc: Thread)
    requires ThreadsOk(xs, ts) && t < |ts| && ThreadOk(xs + [x], t, pc)
    ensures ThreadsOk(xs + [x], ts[t := pc])
  {
    forall u | 0 <= u < |ts| && u != t ensures ThreadOk(xs + [x], u, ts[u]) {
      assert ThreadOk(xs, u, ts[u]);
    }
  }

  /** A thread moves on: what it held and what it holds now have to be looked at, nothing else. */
  lemma {:induction false} HandsMove(xs: seq<Instance>, ts: seq<Thread>, xs': seq<Instance>, t: nat, pc: Thread)
    requires HandsOk(xs, ts) && t < |ts| && |xs| <= |xs'|
    requires forall j :: 0 <= j < |xs'| ==>
             HeldOk(ts[t := pc], j, xs'[j])
               || (j < |xs| && xs'[j] == xs[j] && !(Held(xs[j].phase) && xs[j].phase.thread == t))
    ensures HandsOk(xs', ts[t := pc])
  {
    forall j | 0 <= j < |xs'| ensures HeldOk(ts[t := pc], j, xs'[j]) {
      if j < |xs| {
        assert HeldOk(ts, j, xs[j]);
      }
    }
  }

  lemma {:induction false} HandsKept(xs: seq<Instance>, ts: seq<Thread>, id: nat, x: Instance)
    requires HandsOk(xs, ts) && id < |xs| && !Held(x.phase)
    ensures HandsOk(xs[id := x], ts)
  {
    var xs' := xs[id := x];
    forall j | 0 <= j < |xs| ensures HeldOk(ts, j, xs'[j]) {
      assert HeldOk(ts, j, xs[j]);
    }
  }

  lemma {:induction false} TagsKept(xs: seq<Instance>, tags: seq<Entry>, id: nat, x: Instance)
    requires TagsOk(xs, tags) && id < |xs| && !xs[id].phase.Queued? && !x.phase.Queued?
    ensures TagsOk(xs[id := x], tags)
  {
    var xs' := xs[id := x];
    forall j | 0 <= j < |xs| && xs'[j].phase.Queued? ensures exists k :: IsQueuedAt(tags, j, k) {
      assert xs[j].phase.Queued?;
    }
  }

  lemma {:induction false} TagsAppend(xs: seq<Instance>, tags: seq<Entry>, x: Instance)
    requires TagsOk(xs, tags) && x.phase.Fresh?
    ensures TagsOk(xs + [x], tags)
  {
    var xs' := xs + [x];
    forall j | 0 <= j < |xs'| && xs'[j].phase.Queued? ensures exists k :: IsQueuedAt(tags, j, k) {
      assert xs[j].phase.Queued?;
    }
  }

  lemma {:induction false} TagsPush(xs: seq<Instance>, tags: seq<Entry>, id: nat, x: Instance)
    requires TagsOk(xs, tags) && id < |xs| && !xs[id].phase.Queued? && x.phase.Queued?
    ensures TagsOk(xs[id := x], tags + [Entry(id, false)])
  {
    var xs', tags' := xs[id := x], tags + [Entry(id, false)];
    forall j | 0 <= j < |xs| && xs'[j].phase.Queued? ensures exists k :: IsQueuedAt(tags', j, k) {
      if j == id {
        assert IsQueuedAt(tags', j, |tags|);
      } else {
        assert xs[j].phase.Queued?;
        var k :| IsQueuedAt(tags, j, k);
        assert IsQueuedAt(tags', j, k);
      }
    }
  }

  lemma {:induction false} TagsFinish(xs: seq<Instance>, tags: seq<Entry>, k: nat, x: Instance)
    requires TagsOk(xs, tags) && k < |tags| && !tags[k].finished && !x.phase.Queued?
    ensures TagsOk(xs[tags[k].tag := x], tags[k := tags[k].(finished := true)])
  {
    var xs', tags' := xs[tags[k].tag := x], tags[k := tags[k].(finished := true)];
    forall j | 0 <= j < |xs| && xs'[j].phase.Queued? ensures exists i :: IsQueuedAt(tags', j, i) {
      assert xs[j].phase.Queued?;
      var i :| IsQueuedAt(tags, j, i);
      assert IsQueuedAt(tags', j, i);
    }
  }

  lemma {:induction false} TotalAppend<T>(xs: seq<T>, x: T, f: T -> nat)
    ensures Total(xs + [x], f) == Total(xs, f) + f(x)
  {
    assert (xs + [x])[..|xs|] == xs;
  }

  // ---------------------------------------------------------------- every step keeps the invariant

  lemma {:induction false} StartKeeps(s: State, t: nat)
    requires Inv(s) && Enabled(s, Start(t))
    ensures Core(Next(s, Start(t)))
  {
    var xs, n, x := s.instances, |s.instances|, Constructed(t);
    RuntimeAppend(xs, s.listening, s.replying, s.events, x);
    ThreadsAppend(xs, s.threads, x, t, Creating(n));
    HandsMove(xs, s.threads, xs + [x], t, Creating(n)) by {
      forall j | 0 <= j < n ensures !(Held(xs[j].phase) && xs[j].phase.thread == t) {
        assert HeldOk(s.threads, j, xs[j]);
      }
    }
    TagsAppend(xs, s.tags, x);
    TotalAppend(xs, x, Awaits);
    TotalUpdate(s.threads, t, Creating(n), Started);
  }

  lemma {:induction false} EnqueueKeeps(s: State, t: nat)
    requires Inv(s) && Enabled(s, Enqueue(t))
    ensures Core(Next(s, Enqueue(t)))
  {
    var pc := s.threads[t];
    var id, pc' := if pc.Creating? then pc.id else pc.successor, if pc.Creating? then Polling else Process(pc.id);
    EnqueueInstance(s.instances, s.threads, s.listening, s.replying, s.events, s.tags, t, id, pc');
  }

  lemma {:induction false} EnqueueInstance(xs: seq<Instance>, ts: seq<Thread>, listening: set<nat>, replying: set<nat>,
                                           events: multiset<nat>,
                                           tags: seq<Entry>, t: nat, id: nat, pc: Thread)
    requires InstancesOk(xs) && RuntimeOk(xs, listening, replying, events) && ThreadsOk(xs, ts) && HandsOk(xs, ts)
             && TagsOk(xs, tags)
    requires t < |ts| && id < |xs|
    requires (ts[t] == Creating(id) && pc == Polling)
             || (ts[t].Spawning? && ts[t].successor == id && pc == Process(ts[t].id))
    ensures var xs' := xs[id := xs[id].(status := PROCESS, phase := Queued)];
            && InstancesOk(xs') && RuntimeOk(xs', listening, replying, events) && ThreadsOk(xs', ts[t := pc])
              && HandsOk(xs', ts[t := pc])
            && TagsOk(xs', tags + [Entry(id, false)])
            && Total(xs', Awaits) == Total(xs, Awaits) && Total(ts[t := pc], Started) == Total(ts, Started)
  {
    var x := xs[id].(status := PROCESS, phase := Queued);
    assert ThreadOk(xs, t, ts[t]) && InstanceOk(xs[id]);
    RuntimeSet(xs, listening, replying, events, id, x);
    assert listening - {id} == listening && replying - {id} == replying && events[id := 0] == events;
    ThreadsSet(xs, ts, id, x, t, pc);
    HandsMove(xs, ts, xs[id := x], t, pc) by {
      forall j | 0 <= j < |xs|
        ensures HeldOk(ts[t := pc], j, xs[id := x][j])
                || (xs[id := x][j] == xs[j] && !(Held(xs[j].phase) && xs[j].phase.thread == t))
      {
        assert HeldOk(ts, j, xs[j]);
      }
    }
    TagsPush(xs, tags, id, x);
    TotalUpdate(xs, id, x, Awaits);
    TotalUpdate(ts, t, pc, Started);
  }

  /** A thread takes up, or finishes, the one instance in its hands. */
  lemma {:induction false} ThreadMoves(xs: seq<Instance>, ts: seq<Thread>, tags: seq<Entry>, t: nat, pc: Thread,
                                       id: nat, x: Instance)
    requires InstancesOk(xs) && ThreadsOk(xs, ts) && HandsOk(xs, ts) && TagsOk(xs, tags)
    requires t < |ts| && id < |xs| && !ts[t].NotStarted? && !ts[t].Spawning? && !pc.NotStarted?
    requires InstanceOk(x) && Awaits(x) == Awaits(xs[id]) && !x.phase.Queued? && !xs[id].phase.Queued?
    requires OnlyIn(xs[id].phase, t) && ThreadOk(xs[id := x], t, pc) && HeldOk(ts[t := pc], id, x)
    requires ts[t].Polling? || ts[t] == Proceed(id) || ts[t] == Process(id)
    ensures var xs' := xs[id := x];
            && InstancesOk(xs') && ThreadsOk(xs', ts[t := pc]) && HandsOk(xs', ts[t := pc]) && TagsOk(xs', tags)
            && Total(xs', Awaits) == Total(xs, Awaits) && Total(ts[t := pc], Started) == Total(ts, Started)
  {
    ThreadsSet(xs, ts, id, x, t, pc);
    HandsMove(xs, ts, xs[id := x], t, pc) by {
      forall j | 0 <= j < |xs|
        ensures HeldOk(ts[t := pc], j, xs[id := x][j])
                || (xs[id := x][j] == xs[j] && !(Held(xs[j].phase) && xs[j].phase.thread == t))
      {
        assert HeldOk(ts, j, xs[j]);
      }
    }
    TagsKept(xs, tags, id, x);
    TotalUpdate(xs, id, x, Awaits);
    TotalUpdate(ts, t, pc, Started);
  }

  lemma {:induction false} TakeKeeps(s: State, t: nat, id: nat)
    requires Inv(s) && Enabled(s, Take(t, id))
    ensures Core(Next(s, Take(t, id)))
  {
    var xs := s.instances;
    var x := xs[id].(phase := if xs[id].status.FINISH? then Ending(t) else Taken(t));
    assert s.events[id] == 1 && InQueue(xs[id]) && InstanceOk(xs[id]);
    RuntimeSet(xs, s.listening, s.replying, s.events, id, x);
    assert s.listening - {id} == s.listening && s.replying - {id} == s.replying
           && s.events[id := 0] == s.events - multiset{id};
    ThreadMoves(xs, s.threads, s.tags, t, Proceed(id), id, x);
  }

  lemma {:induction false} SpawnKeeps(s: State, t: nat)
    requires Inv(s) && Enabled(s, Act(t)) && s.instances[s.threads[t].id].status.PROCESS?
    ensures Core(Next(s, Act(t)))
  {
    var xs, ts, id := s.instances, s.threads, s.threads[t].id;
    assert ThreadOk(xs, t, ts[t]) && InstanceOk(xs[id]);
    SpawnRuntime(xs, s.listening, s.replying, s.events, t, id);
    SpawnTags(xs, s.tags, t, id);
    SpawnThreads(xs, ts, t, id);
    SpawnHands(xs, ts, t, id);
    SpawnTotals(xs, ts, t, id);
  }

  lemma {:induction false} SpawnRuntime(xs: seq<Instance>, listening: set<nat>, replying: set<nat>,
                                        events: multiset<nat>, t: nat, id: nat)
    requires InstancesOk(xs) && RuntimeOk(xs, listening, replying, events) && id < |xs| && xs[id].phase == Taken(t)
    ensures InstancesOk(xs[id := xs[id].(phase := Serving(t))] + [Constructed(t)])
    ensures RuntimeOk(xs[id := xs[id].(phase := Serving(t))] + [Constructed(t)], listening, replying, events)
  {
    var x := xs[id].(phase := Serving(t));
    RuntimeSet(xs, listening, replying, events, id, x);
    assert listening - {id} == listening && replying - {id} == replying && events[id := 0] == events;
    RuntimeAppend(xs[id := x], listening, replying, events, Constructed(t));
  }

  lemma {:induction false} SpawnTags(xs: seq<Instance>, tags: seq<Entry>, t: nat, id: nat)
    requires TagsOk(xs, tags) && id < |xs| && xs[id].phase == Taken(t)
    ensures TagsOk(xs[id := xs[id].(phase := Serving(t))] + [Constructed(t)], tags)
  {
    var x := xs[id].(phase := Serving(t));
    TagsKept(xs, tags, id, x);
    TagsAppend(xs[id := x], tags, Constructed(t));
  }

  lemma {:induction false} SpawnTotals(xs: seq<Instance>, ts: seq<Thread>, t: nat, id: nat)
    requires id < |xs| && xs[id].phase == Taken(t) && t < |ts| && !ts[t].NotStarted?
    ensures Total(xs[id := xs[id].(phase := Serving(t))] + [Constructed(t)], Awaits) == Total(xs, Awaits)
    ensures Total(ts[t := Spawning(id, |xs|)], Started) == Total(ts, Started)
  {
    var x := xs[id].(phase := Serving(t));
    TotalUpdate(xs, id, x, Awaits);
    TotalAppend(xs[id := x], Constructed(t), Awaits);
    TotalUpdate(ts, t, Spawning(id, |xs|), Started);
  }

  lemma {:induction false} SpawnThreads(xs: seq<Instance>, ts: seq<Thread>, t: nat, id: nat)
    requires ThreadsOk(xs, ts) && t < |ts| && id < |xs| && xs[id].phase == Taken(t)
    ensures ThreadsOk(xs[id := xs[id].(phase := Serving(t))] + [Constructed(t)], ts[t := Spawning(id, |xs|)])
  {
    var x := xs[id].(phase := Serving(t));
    ThreadsSet(xs, ts, id, x, t, Process(id));
    ThreadsAppend(xs[id := x], ts[t := Process(id)], Constructed(t), t, Spawning(id, |xs|));
    assert ts[t := Process(id)][t := Spawning(id, |xs|)] == ts[t := Spawning(id, |xs|)];
  }

  lemma {:induction false} SpawnHands(xs: seq<Instance>, ts: seq<Thread>, t: nat, id: nat)
    requires HandsOk(xs, ts) && t < |ts| && id < |xs| && ts[t] == Proceed(id)
    ensures HandsOk(xs[id := xs[id].(phase := Serving(t))] + [Constructed(t)], ts[t := Spawning(id, |xs|)])
  {
    var xs', ts' := xs[id := xs[id].(phase := Serving(t))] + [Constructed(t)], ts[t := Spawning(id, |xs|)];
    forall j | 0 <= j < |xs'| ensures HeldOk(ts', j, xs'[j]) {
      assert j < |xs| ==> HeldOk(ts, j, xs[j]);
    }
  }

  lemma {:induction false} DeleteKeeps(s: State, t: nat)
    requires Inv(s) && Enabled(s, Act(t)) && s.instances[s.threads[t].id].status.FINISH?
    ensures Core(Next(s, Act(t)))
  {
    var xs, id := s.instances, s.threads[t].id;
    var x := xs[id].(phase := Gone, deleted := xs[id].deleted + 1);
    assert ThreadOk(xs, t, s.threads[t]) && InstanceOk(xs[id]);
    RuntimeSet(xs, s.listening, s.replying, s.events, id, x);
    assert s.listening - {id} == s.listening && s.replying - {id} == s.replying && s.events[id := 0] == s.events;
    ThreadMoves(xs, s.threads, s.tags, t, Polling, id, x);
  }

  /** An event never carries an instance that is still to be queued. */
  lemma {:induction false} NeverCreate(s: State, t: nat)
    requires Inv(s) && t < |s.threads| && s.threads[t].Proceed?
    ensures !s.instances[s.threads[t].id].status.CREATE?
  {
    assert ThreadOk(s.instances, t, s.threads[t]) && InstanceOk(s.instances[s.threads[t].id]);
  }

  lemma {:induction false} ActKeeps(s: State, t: nat)
    requires Inv(s) && Enabled(s, Act(t))
    ensures Core(Next(s, Act(t)))
  {
    NeverCreate(s, t);
    if s.instances[s.threads[t].id].status.PROCESS? {
      SpawnKeeps(s, t);
    } else {
      DeleteKeeps(s, t);
    }
  }

  lemma {:induction false} ReplyKeeps(s: State, t: nat)
    requires Inv(s) && Enabled(s, Reply(t))
    ensures Core(Next(s, Reply(t)))
  {
    var xs, id := s.instances, s.threads[t].id;
    var x := xs[id].(status := FINISH, phase := Replying, finished := xs[id].finished + 1);
    assert ThreadOk(xs, t, s.threads[t]) && InstanceOk(xs[id]);
    RuntimeSet(xs, s.listening, s.replying, s.events, id, x);
    assert s.listening - {id} == s.listening && s.events[id := 0] == s.events;
    ThreadMoves(xs, s.threads, s.tags, t, Polling, id, x);
  }

  /** The runtime moves an instance that no thread holds into the completion queue. */
  lemma {:induction false} RuntimeMoves(s: State, id: nat, x: Instance)
    requires Inv(s) && id < |s.instances| && !Held(s.instances[id].phase) && !Held(x.phase)
    requires InstanceOk(x) && Awaits(x) == Awaits(s.instances[id]) && !x.phase.Queued? && !s.instances[id].phase.Queued?
    ensures var xs' := s.instances[id := x];
            InstancesOk(xs') && ThreadsOk(xs', s.threads) && HandsOk(xs', s.threads) && TagsOk(xs', s.tags)
            && Total(xs', Awaits) == Total(s.threads, Started)
  {
    ThreadsKept(s.instances, s.threads, id, x);
    HandsKept(s.instances, s.threads, id, x);
    TagsKept(s.instances, s.tags, id, x);
    TotalUpdate(s.instances, id, x, Awaits);
  }

  lemma {:induction false} ClientCallKeeps(s: State, id: nat)
    requires Inv(s) && Enabled(s, ClientCall(id))
    ensures Core(Next(s, ClientCall(id)))
  {
    var x := s.instances[id].(phase := Called);
    assert InstanceOk(s.instances[id]);
    RuntimeSet(s.instances, s.listening, s.replying, s.events, id, x);
    assert s.replying - {id} == s.replying && s.events[id := 1] == s.events + multiset{id};
    RuntimeMoves(s, id, x);
  }

  lemma {:induction false} ReplyDoneKeeps(s: State, id: nat)
    requires Inv(s) && Enabled(s, ReplyDone(id))
    ensures Core(Next(s, ReplyDone(id)))
  {
    var x := s.instances[id].(phase := Replied);
    assert InstanceOk(s.instances[id]);
    RuntimeSet(s.instances, s.listening, s.replying, s.events, id, x);
    assert s.listening - {id} == s.listening && s.events[id := 1] == s.events + multiset{id};
    RuntimeMoves(s, id, x);
  }

  lemma {:induction false} RegisterNextKeeps(s: State)
    requires Inv(s) && Enabled(s, RegisterNext)
    ensures Core(Next(s, RegisterNext))
  {
    var xs, k := s.instances, s.processor.index;
    var id := s.tags[k].tag;
    var x := xs[id].(phase := Listening, registered := xs[id].registered + 1);
    RegisterRuntime(xs, s.listening, s.replying, s.events, id);
    ThreadsKept(xs, s.threads, id, x);
    HandsKept(xs, s.threads, id, x);
    TagsFinish(xs, s.tags, k, x);
    TotalUpdate(xs, id, x, Awaits);
  }

  lemma {:induction false} RegisterRuntime(xs: seq<Instance>, listening: set<nat>, replying: set<nat>,
                                           events: multiset<nat>, id: nat)
    requires InstancesOk(xs) && RuntimeOk(xs, listening, replying, events) && id < |xs| && xs[id].phase.Queued?
    ensures var xs' := xs[id := xs[id].(phase := Listening, registered := xs[id].registered + 1)];
            InstancesOk(xs') && RuntimeOk(xs', listening + {id}, replying, events)
  {
    var x := xs[id].(phase := Listening, registered := xs[id].registered + 1);
    assert InstanceOk(xs[id]);
    RuntimeSet(xs, listening, replying, events, id, x);
    assert replying - {id} == replying && events[id := 0] == events;
  }

  lemma {:induction false} UnfinishedAll(tags: seq<Entry>)
    requires forall k :: 0 <= k < |tags| ==> tags[k].finished
    ensures Unfinished(tags) == []
    decreases |tags|
  {
    if tags != [] {
      UnfinishedAll(tags[1..]);
    }
  }

  /** When the processor leaves its guard it has registered every queued tag and erased them all. */
  lemma {:induction false} GuardEmptiesQueue(s: State)
    requires Inv(s) && Enabled(s, LeaveGuard)
    ensures Next(s, LeaveGuard).tags == []
    ensures forall id :: 0 <= id < |s.instances| ==> !s.instances[id].phase.Queued?
  {
    UnfinishedAll(s.tags);
    assert forall id, k :: !IsQueuedAt(s.tags, id, k);
  }

  lemma {:induction false} StepKeepsInv(s: State, step: Step)
    requires Inv(s) && Enabled(s, step)
    ensures Inv(Next(s, step))
  {
    match step
    case Start(t) => StartKeeps(s, t); CoreIsTidy(Next(s, step));
    case Enqueue(t) => EnqueueKeeps(s, t); CoreIsTidy(Next(s, step));
    case Take(t, id) => TakeKeeps(s, t, id); CoreIsTidy(Next(s, step));
    case Act(t) => ActKeeps(s, t); CoreIsTidy(Next(s, step));
    case Reply(t) => ReplyKeeps(s, t); CoreIsTidy(Next(s, step));
    case ClientCall(id) => ClientCallKeeps(s, id); CoreIsTidy(Next(s, step));
    case ReplyDone(id) => ReplyDoneKeeps(s, id); CoreIsTidy(Next(s, step));
    case EnterGuard => CoreIsTidy(Next(s, step));
    case RegisterNext => RegisterNextKeeps(s); CoreIsTidy(Next(s, step));
    case LeaveGuard => GuardEmptiesQueue(s); CoreIsTidy(Next(s, step));
  }
}
