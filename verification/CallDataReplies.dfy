/**
 That every call of a client is answered before its instance goes away, and that nothing
 ever stands in the way of an answer.
 */
module CallDataReplies {
  import opened Totals
  import opened CallData
  import opened CallDataRuns

  // ---------------------------------------------------------------- no instance goes without its answer

  /** The reply of the instance has gone out among the first k steps. */
  ghost predicate Answered(steps: seq<Step>, k: nat, id: nat)
    requires k <= |steps|
  {
    exists i :: 0 <= i < k && steps[i] == ReplyDone(id)
  }

  /** And some thread has then taken the event that says so. */
  ghost predicate Acknowledged(steps: seq<Step>, k: nat, id: nat)
    requires k <= |steps|
  {
    exists i, j, t :: 0 <= i < j < k && steps[i] == ReplyDone(id) && steps[j] == Take(t, id)
  }

  predicate Last(x: Phase) {
    x.Ending? || x.Gone?
  }

  /** The step by which an instance comes from phase x to one of its last phases y. */
  ghost predicate LastStep(x: Phase, y: Phase, step: Step, id: nat) {
    && (y.Replied? ==> x.Replied? || step == ReplyDone(id))
    && (Last(y) ==> Last(x) || (x.Replied? && exists t :: step == Take(t, id)))
  }

  lemma {:induction false} LastPhases(s: State, step: Step, id: nat)
    requires Inv(s) && Enabled(s, step) && id < |s.instances|
    ensures id < |Next(s, step).instances|
    ensures LastStep(s.instances[id].phase, Next(s, step).instances[id].phase, step, id)
  {
    if step.Act? {
      var t := step.t;
      assert ThreadOk(s.instances, t, s.threads[t]) && InstanceOk(s.instances[s.threads[t].id]);
    } else if step.Take? {
      assert s.events[step.id] == 1 && InQueue(s.instances[step.id]) && InstanceOk(s.instances[step.id]);
    }
  }

  /** A new instance is in none of them. */
  lemma {:induction false} NewInstance(s: State, step: Step, id: nat)
    requires Inv(s) && Enabled(s, step) && |s.instances| <= id < |Next(s, step).instances|
    ensures Next(s, step).instances[id].phase.Fresh?
  {
  }

  /** What the first k steps say about an instance in its last phases. */
  ghost predicate Told(steps: seq<Step>, k: nat, x: Phase, id: nat)
    requires k <= |steps|
  {
    (x.Replied? ==> Answered(steps, k, id)) && (Last(x) ==> Acknowledged(steps, k, id))
  }

  lemma {:induction false} ToldNext(steps: seq<Step>, k: nat, x: Phase, y: Phase, id: nat)
    requires 0 < k <= |steps| && Told(steps, k - 1, x, id) && LastStep(x, y, steps[k - 1], id)
    ensures Told(steps, k, y, id)
  {
    if Last(y) && !Last(x) {
      var i :| 0 <= i < k - 1 && steps[i] == ReplyDone(id);
      var t :| steps[k - 1] == Take(t, id);
      assert 0 <= i < k - 1 < k && steps[k - 1] == Take(t, id);
    }
  }

  lemma {:induction false} RunStep(threads: nat, states: seq<State>, steps: seq<Step>, k: nat)
    requires IsRun(threads, states, steps) && k < |steps|
    ensures Inv(states[k]) && Enabled(states[k], steps[k]) && states[k + 1] == Next(states[k], steps[k])
  {
    RunKeepsInv(threads, states, steps, k);
  }

  lemma {:induction false} HistoryStep(steps: seq<Step>, k: nat, s: State, u: State, id: nat)
    requires 0 < k <= |steps| && Inv(s) && Enabled(s, steps[k - 1]) && u == Next(s, steps[k - 1])
    requires id < |u.instances| && (id < |s.instances| ==> Told(steps, k - 1, s.instances[id].phase, id))
    ensures Told(steps, k, u.instances[id].phase, id)
  {
    if id < |s.instances| {
      LastPhases(s, steps[k - 1], id);
      ToldNext(steps, k, s.instances[id].phase, u.instances[id].phase, id);
    } else {
      NewInstance(s, steps[k - 1], id);
    }
  }

  lemma {:induction false} PhaseHistory(threads: nat, states: seq<State>, steps: seq<Step>, k: nat, id: nat)
    requires IsRun(threads, states, steps) && k <= |steps| && id < |states[k].instances|
    ensures Told(steps, k, states[k].instances[id].phase, id)
    decreases k
  {
    if k > 0 {
      RunStep(threads, states, steps, k - 1);
      var s, u := states[k - 1], states[k];
      assert id < |s.instances| ==> Told(steps, k - 1, s.instances[id].phase, id) by {
        if id < |s.instances| {
          PhaseHistory(threads, states, steps, k - 1, id);
        }
      }
      HistoryStep(steps, k, s, u, id);
    }
  }

  /** An instance is deleted only after its reply has gone out and a thread has taken the event for it. */
  lemma {:induction false} DeletedWasAnswered(threads: nat, states: seq<State>, steps: seq<Step>, k: nat, id: nat)
    requires IsRun(threads, states, steps) && k <= |steps| && id < |states[k].instances|
    requires states[k].instances[id].deleted > 0
    ensures exists i, j, t :: 0 <= i < j < k && steps[i] == ReplyDone(id) && steps[j] == Take(t, id)
  {
    RunKeepsInv(threads, states, steps, k);
    assert InstanceOk(states[k].instances[id]);
    PhaseHistory(threads, states, steps, k, id);
  }

  /** Once Finish has been called the reply stays pending until it has gone out. */
  lemma {:induction false} ReplyStaysPending(threads: nat, states: seq<State>, steps: seq<Step>, k: nat, m: nat)
    requires IsRun(threads, states, steps) && k < m <= |steps| && steps[k].Reply?
    requires forall j :: k < j < m ==> steps[j] != ReplyDone(states[k].threads[steps[k].t].id)
    ensures states[k].threads[steps[k].t].id in states[m].replying
    decreases m
  {
    if m > k + 1 {
      ReplyStaysPending(threads, states, steps, k, m - 1);
    }
  }

  // ---------------------------------------------------------------- every instance can be answered

  /** How far an instance is from its reply. */
  function PhaseRank(x: Phase): nat {
    match x
    case Fresh(_) => 6
    case Queued => 5
    case Listening => 4
    case Called => 3
    case Taken(_) => 2
    case Serving(_) => 1
    case _ => 0
  }

  /** How far a thread is from waiting for the next event. */
  function ThreadRank(pc: Thread): nat {
    match pc
    case Proceed(_) => 4
    case Spawning(_, _) => 3
    case Process(_) => 2
    case Creating(_) => 1
    case _ => 0
  }

  /** How far the processor is from leaving its guard, or from registering what is queued. */
  function ProcessorRank(s: State, queued: bool): nat
    requires s.processor.At? ==> s.processor.index <= |s.tags|
  {
    if s.processor.At? then |s.tags| - s.processor.index + 1
    else if queued then |s.tags| + 2
    else 0
  }

  /** The instance has its reply ahead of it, and thread t is the one to bring it there. */
  predicate OnItsWay(s: State, id: nat, t: nat) {
    && id < |s.instances| && t < |s.threads| && !s.threads[t].NotStarted?
    && var x := s.instances[id].phase;
       PhaseRank(x) > 0 && OnlyIn(x, t)
  }

  predicate Pending(s: State, id: nat) {
    id < |s.instances| && s.instances[id].phase.Replying?
  }

  function Ranks(s: State, id: nat, t: nat): (nat, nat, nat) {
    if OnItsWay(s, id, t) && (s.processor.At? ==> s.processor.index <= |s.tags|) then
      (PhaseRank(s.instances[id].phase), ThreadRank(s.threads[t]), ProcessorRank(s, s.instances[id].phase.Queued?))
    else (0, 0, 0)
  }

  predicate Less(a: (nat, nat, nat), b: (nat, nat, nat)) {
    a.0 < b.0 || (a.0 == b.0 && (a.1 < b.1 || (a.1 == b.1 && a.2 < b.2)))
  }

  predicate Closer(s: State, u: State, id: nat, t: nat) {
    OnItsWay(u, id, t) && Less(Ranks(u, id, t), Ranks(s, id, t))
  }

  /** Only the client's own call comes from outside. */
  predicate OwnStep(step: Step, id: nat) {
    !step.Start? && (step.ClientCall? ==> step.id == id)
  }

  function ProcessorStep(s: State): Step {
    if s.processor.Away? then EnterGuard else if s.processor.index < |s.tags| then RegisterNext else LeaveGuard
  }

  lemma {:induction false} ProcessorCloser(s: State, id: nat, t: nat)
    requires Inv(s) && OnItsWay(s, id, t) && (s.processor.At? || s.instances[id].phase.Queued?)
    ensures Enabled(s, ProcessorStep(s)) && Closer(s, Next(s, ProcessorStep(s)), id, t)
  {
    if s.processor.At? {
      if s.processor.index < |s.tags| {
        assert s.instances[s.tags[s.processor.index].tag].phase.Queued?;
      } else {
        assert forall k :: !IsQueuedAt(s.tags, id, k);
      }
    }
  }

  lemma {:induction false} EnqueueCloser(s: State, id: nat, t: nat)
    requires Inv(s) && OnItsWay(s, id, t) && s.processor.Away? && (s.threads[t].Creating? || s.threads[t].Spawning?)
    requires !s.instances[id].phase.Queued?
    ensures Enabled(s, Enqueue(t)) && Closer(s, Next(s, Enqueue(t)), id, t)
  {
    assert ThreadOk(s.instances, t, s.threads[t]) && HeldOk(s.threads, id, s.instances[id]);
  }

  lemma {:induction false} ActCloser(s: State, id: nat, t: nat)
    requires Inv(s) && OnItsWay(s, id, t) && s.threads[t].Proceed?
    ensures Enabled(s, Act(t)) && Closer(s, Next(s, Act(t)), id, t)
  {
    NeverCreate(s, t);
    assert ThreadOk(s.instances, t, s.threads[t]) && HeldOk(s.threads, id, s.instances[id]);
    assert InstanceOk(s.instances[s.threads[t].id]) && InstanceOk(s.instances[id]);
  }

  lemma {:induction false} ReplyCloser(s: State, id: nat, t: nat)
    requires Inv(s) && OnItsWay(s, id, t) && s.threads[t].Process?
    ensures Enabled(s, Reply(t))
    ensures if s.threads[t].id == id then Pending(Next(s, Reply(t)), id) else Closer(s, Next(s, Reply(t)), id, t)
  {
    assert ThreadOk(s.instances, t, s.threads[t]);
  }

  lemma {:induction false} TakeCloser(s: State, id: nat, t: nat)
    requires Inv(s) && OnItsWay(s, id, t) && s.threads[t].Polling? && s.instances[id].phase.Called?
    ensures Enabled(s, Take(t, id)) && Closer(s, Next(s, Take(t, id)), id, t)
  {
    assert InstanceOk(s.instances[id]) && s.events[id] == 1;
  }

  lemma {:induction false} CallCloser(s: State, id: nat, t: nat)
    requires Inv(s) && OnItsWay(s, id, t) && s.instances[id].phase.Listening?
    ensures Enabled(s, ClientCall(id)) && Closer(s, Next(s, ClientCall(id)), id, t)
  {
  }

  /** A thread with nothing in its hands holds no instance. */
  lemma {:induction false} PollingHoldsNothing(s: State, id: nat, t: nat)
    requires Inv(s) && OnItsWay(s, id, t) && s.threads[t].Polling?
    ensures var x := s.instances[id].phase; x.Queued? || x.Listening? || x.Called?
  {
    assert HeldOk(s.threads, id, s.instances[id]);
  }

  /** Always some step brings the instance closer to its reply, or has it pending. */
  lemma {:induction false} StepCloser(s: State, id: nat, t: nat) returns (step: Step)
    requires Inv(s) && OnItsWay(s, id, t)
    ensures Enabled(s, step) && OwnStep(step, id)
    ensures Closer(s, Next(s, step), id, t) || Pending(Next(s, step), id)
  {
    var x, pc := s.instances[id].phase, s.threads[t];
    if x.Queued? {
      step := ProcessorStep(s);
      ProcessorCloser(s, id, t);
    } else if x.Listening? {
      step := ClientCall(id);
      CallCloser(s, id, t);
    } else if pc.Creating? || pc.Spawning? {
      if s.processor.Away? {
        step := Enqueue(t);
        EnqueueCloser(s, id, t);
      } else {
        step := ProcessorStep(s);
        ProcessorCloser(s, id, t);
      }
    } else if pc.Proceed? {
      step := Act(t);
      ActCloser(s, id, t);
    } else if pc.Process? {
      step := Reply(t);
      ReplyCloser(s, id, t);
    } else {
      step := Take(t, id);
      PollingHoldsNothing(s, id, t);
      TakeCloser(s, id, t);
    }
  }

  lemma {:induction false} ExtendRun(threads: nat, states: seq<State>, steps: seq<Step>, step: Step)
    requires IsRun(threads, states, steps) && Inv(states[|steps|]) && Enabled(states[|steps|], step)
    ensures IsRun(threads, states + [Next(states[|steps|], step)], steps + [step])
  {
  }

  ghost predicate OwnSteps(steps: seq<Step>, from: nat, id: nat) {
    forall j :: from <= j < |steps| ==> OwnStep(steps[j], id)
  }

  lemma {:induction false} ExtendCloser(threads: nat, states: seq<State>, steps: seq<Step>, id: nat, t: nat)
    returns (u: State, step: Step)
    requires IsRun(threads, states, steps) && OnItsWay(states[|steps|], id, t)
    ensures IsRun(threads, states + [u], steps + [step]) && OwnStep(step, id)
    ensures Closer(states[|steps|], u, id, t) || Pending(u, id)
  {
    RunKeepsInv(threads, states, steps, |steps|);
    step := StepCloser(states[|steps|], id, t);
    ExtendRun(threads, states, steps, step);
    u := Next(states[|steps|], step);
  }

  lemma {:induction false} ExtendReply(threads: nat, states: seq<State>, steps: seq<Step>, id: nat) returns (u: State)
    requires IsRun(threads, states, steps) && Pending(states[|steps|], id)
    ensures IsRun(threads, states + [u], steps + [ReplyDone(id)])
  {
    RunKeepsInv(threads, states, steps, |steps|);
    ExtendRun(threads, states, steps, ReplyDone(id));
    u := Next(states[|steps|], ReplyDone(id));
  }

  /** One step more, or two when the second is the reply. */
  lemma {:induction false} OneCloser(threads: nat, states: seq<State>, steps: seq<Step>, id: nat, t: nat)
    returns (longer: seq<State>, more: seq<Step>, done: bool)
    requires IsRun(threads, states, steps) && OnItsWay(states[|steps|], id, t)
    ensures IsRun(threads, longer, more) && steps < more && OwnSteps(more, |steps|, id)
    ensures if done then more[|more| - 1] == ReplyDone(id) else Closer(states[|steps|], longer[|more|], id, t)
  {
    var u, step := ExtendCloser(threads, states, steps, id, t);
    longer, more, done := states + [u], steps + [step], Pending(u, id);
    if done {
      var v := ExtendReply(threads, longer, more, id);
      longer, more := longer + [v], more + [ReplyDone(id)];
    }
  }

  /** The run goes on to the instance's reply. */
  lemma {:induction false} DriveToReply(threads: nat, states: seq<State>, steps: seq<Step>, id: nat, t: nat,
                                        r: (nat, nat, nat))
    returns (longer: seq<State>, more: seq<Step>)
    requires IsRun(threads, states, steps) && OnItsWay(states[|steps|], id, t)
    requires r == Ranks(states[|steps|], id, t)
    ensures IsRun(threads, longer, more) && steps <= more && OwnSteps(more, |steps|, id)
    ensures |more| > |steps| && more[|more| - 1] == ReplyDone(id)
    decreases r.0, r.1, r.2
  {
    var states', steps', done := OneCloser(threads, states, steps, id, t);
    if done {
      longer, more := states', steps';
    } else {
      longer, more := DriveToReply(threads, states', steps', id, t, Ranks(states'[|steps'|], id, t));
      StillOwn(steps, steps', more, id);
    }
  }

  lemma {:induction false} StillOwn(a: seq<Step>, b: seq<Step>, c: seq<Step>, id: nat)
    requires a <= b <= c && OwnSteps(b, |a|, id) && OwnSteps(c, |b|, id)
    ensures OwnSteps(c, |a|, id)
  {
    forall j | |a| <= j < |c| ensures OwnStep(c[j], id) {
      assert j < |b| ==> c[j] == b[j];
    }
  }

  /** Some thread is on its way with every instance that has no reply yet. */
  lemma {:induction false} HasThread(s: State, id: nat) returns (t: nat)
    requires Inv(s) && id < |s.instances| && PhaseRank(s.instances[id].phase) > 0
    ensures OnItsWay(s, id, t)
  {
    assert HeldOk(s.threads, id, s.instances[id]);
    if Held(s.instances[id].phase) {
      t := s.instances[id].phase.thread;
    } else {
      TotalCovers(s.instances, id, Awaits);
      t := TotalWitness(s.threads, Started);
    }
  }

  /**
   From every reachable state, every instance that has not replied yet can still come to reply:
   no thread has to be started, and no client has to call but its own.
   */
  lemma {:induction false} EveryInstanceCanReply(threads: nat, states: seq<State>, steps: seq<Step>, id: nat)
    returns (longer: seq<State>, more: seq<Step>)
    requires IsRun(threads, states, steps) && id < |states[|steps|].instances|
    requires states[|steps|].instances[id].finished == 0
    ensures IsRun(threads, longer, more) && steps <= more && OwnSteps(more, |steps|, id)
    ensures |more| > |steps| && more[|more| - 1] == ReplyDone(id)
  {
    RunKeepsInv(threads, states, steps, |steps|);
    assert InstanceOk(states[|steps|].instances[id]);
    var t := HasThread(states[|steps|], id);
    longer, more := DriveToReply(threads, states, steps, id, t, Ranks(states[|steps|], id, t));
  }

  /** So the service does serve: with one thread or more the first instance can be answered. */
  lemma {:induction false} FirstReply(threads: nat) returns (states: seq<State>, steps: seq<Step>)
    requires threads > 0
    ensures IsRun(threads, states, steps) && steps != [] && steps[|steps| - 1] == ReplyDone(0)
  {
    var s := Initial(threads);
    InitialInv(threads);
    assert IsRun(threads, [s], []);
    ExtendRun(threads, [s], [], Start(0));
    states, steps := EveryInstanceCanReply(threads, [s] + [Next(s, Start(0))], [] + [Start(0)], 0);
  }
}
