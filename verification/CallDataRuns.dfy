/**
 What holds of the asynchronous listeners over every run of completion events.
 */
module CallDataRuns {
  import opened Totals
  import opened CallData

  /** The service before its threads are started. */
  function Initial(threads: nat): State {
    State([], seq(threads, _ => NotStarted), [], Away, {}, {}, multiset{})
  }

  /** Any interleaving. Tidiness is only what makes a step defined: every state reached has it, by RunKeepsInv. */
  ghost predicate IsRun(threads: nat, states: seq<State>, steps: seq<Step>) {
    && |states| == |steps| + 1
    && states[0] == Initial(threads)
    && forall k :: 0 <= k < |steps| ==>
      Tidy(states[k]) && Enabled(states[k], steps[k]) && states[k + 1] == Next(states[k], steps[k])
  }

  lemma {:induction false} InitialInv(threads: nat)
    ensures Inv(Initial(threads))
  {
    TotalZero(Initial(threads).threads, Started);
  }

  lemma {:induction false} RunKeepsInv(threads: nat, states: seq<State>, steps: seq<Step>, k: nat)
    requires IsRun(threads, states, steps) && k < |states|
    ensures Inv(states[k])
    decreases k
  {
    if k == 0 {
      InitialInv(threads);
    } else {
      RunKeepsInv(threads, states, steps, k - 1);
      StepKeepsInv(states[k - 1], steps[k - 1]);
    }
  }

  // ---------------------------------------------------------------- conservation

  /** An instance that a client can still reach. */
  function Waiting(x: Instance): nat {
    if x.phase.Queued? || x.phase.Listening? || x.phase.Called? then 1 else 0
  }

  /** No thread is inside Proceed or a constructor. */
  predicate BetweenCalls(s: State) {
    forall t :: 0 <= t < |s.threads| ==> s.threads[t].NotStarted? || s.threads[t].Polling?
  }

  lemma {:induction false} TotalSame<T>(xs: seq<T>, f: T -> nat, g: T -> nat)
    requires forall k :: 0 <= k < |xs| ==> f(xs[k]) == g(xs[k])
    ensures Total(xs, f) == Total(xs, g)
    decreases |xs|
  {
    if xs != [] {
      TotalSame(xs[..|xs| - 1], f, g);
    }
  }

  /** Between Proceed calls, the instances waiting for a client are as many as the started threads. */
  lemma {:induction false} ListenersConserved(threads: nat, states: seq<State>, steps: seq<Step>, k: nat)
    requires IsRun(threads, states, steps) && k < |states| && BetweenCalls(states[k])
    ensures Total(states[k].instances, Waiting) == Total(states[k].threads, Started)
  {
    RunKeepsInv(threads, states, steps, k);
    var s := states[k];
    forall id | 0 <= id < |s.instances| ensures Waiting(s.instances[id]) == Awaits(s.instances[id]) {
      assert HeldOk(s.threads, id, s.instances[id]);
    }
    TotalSame(s.instances, Waiting, Awaits);
  }

  /** From the first thread on there is always a listener, or one about to be queued or replaced. */
  lemma {:induction false} AlwaysAListener(threads: nat, states: seq<State>, steps: seq<Step>, k: nat, t: nat)
    returns (id: nat)
    requires IsRun(threads, states, steps) && k < |states| && t < |states[k].threads|
             && !states[k].threads[t].NotStarted?
    ensures id < |states[k].instances| && Awaits(states[k].instances[id]) == 1
  {
    RunKeepsInv(threads, states, steps, k);
    TotalCovers(states[k].threads, t, Started);
    id := TotalWitness(states[k].instances, Awaits);
  }

  // ---------------------------------------------------------------- one instance

  /** Every waiting instance is in the queue of tags once, or registered once and not in the queue. */
  lemma {:induction false} QueuedOrRegistered(s: State, id: nat)
    requires Inv(s) && id < |s.instances| && Waiting(s.instances[id]) == 1
    ensures (exists k :: IsQueuedAt(s.tags, id, k)) <==> s.instances[id].registered == 0
    ensures s.instances[id].registered == 1 <==> id in s.listening || id in s.events
    ensures forall j, k :: IsQueuedAt(s.tags, id, j) && IsQueuedAt(s.tags, id, k) ==> j == k
    ensures !(id in s.listening && id in s.events) && s.events[id] <= 1
  {
    assert InstanceOk(s.instances[id]);
    forall j, k | IsQueuedAt(s.tags, id, j) && IsQueuedAt(s.tags, id, k) ensures j == k {
    }
    if s.instances[id].phase.Queued? {
      var k :| IsQueuedAt(s.tags, id, k);
    }
  }

  /** Each instance is registered, answered and deleted at most once, and in that order. */
  lemma {:induction false} AtMostOnce(threads: nat, states: seq<State>, steps: seq<Step>, k: nat, id: nat)
    requires IsRun(threads, states, steps) && k < |states| && id < |states[k].instances|
    ensures var x := states[k].instances[id]; x.deleted <= x.finished <= x.registered <= 1
  {
    RunKeepsInv(threads, states, steps, k);
    assert InstanceOk(states[k].instances[id]);
  }

  /**
   A deleted instance is in no thread's hands, under no event or pending operation, and in no entry
   still to be registered.
   */
  lemma {:induction false} DeletedIsUnreachable(threads: nat, states: seq<State>, steps: seq<Step>, k: nat, id: nat)
    requires IsRun(threads, states, steps) && k < |states| && id < |states[k].instances|
             && states[k].instances[id].deleted > 0
    ensures var s := states[k];
            && id !in s.events && id !in s.listening && id !in s.replying
            && (forall j :: !IsQueuedAt(s.tags, id, j))
            && (forall t :: 0 <= t < |s.threads| ==> !Uses(s.threads[t], id))
  {
    RunKeepsInv(threads, states, steps, k);
    var s := states[k];
    assert InstanceOk(s.instances[id]);
    forall t | 0 <= t < |s.threads| ensures !Uses(s.threads[t], id) {
      assert ThreadOk(s.instances, t, s.threads[t]);
    }
  }

  predicate Uses(pc: Thread, id: nat) {
    match pc
    case Creating(i) => i == id
    case Proceed(i) => i == id
    case Spawning(i, successor) => i == id || successor == id
    case Process(i) => i == id
    case _ => false
  }
}
