/**
  The guard of the backfill engine under interleaving: submitters add their tenant to a shared set
  and then, in a second step, try to send the job into a bounded channel; one worker receives,
  runs, and finally removes the tenant.
 */
module BackfillGuard {
  import opened Text

  type Tenant = int

  const CAPACITY: nat := 100

  datatype Engine = Engine(
    active: set<Tenant>,       // the shared set
    inFlight: seq<Tenant>,     // submitters between insert and send
    queue: seq<Tenant>,        // the channel
    running: seq<Tenant>,      // at most one job in the worker
    dropped: set<Tenant>)      // jobs refused by a full channel

  datatype Action = Insert(tenant: Tenant) | Send(i: nat) | Receive | Finish

  function Start(): Engine {
    Engine({}, [], [], [], {})
  }

  predicate Enabled(e: Engine, a: Action) {
    match a
    case Insert(_) => true
    case Send(i) => i < |e.inFlight|
    case Receive => e.running == [] && e.queue != []
    case Finish => e.running != []
  }

  function Remove(s: seq<Tenant>, i: nat): seq<Tenant>
    requires i < |s|
  {
    s[..i] + s[i + 1..]
  }

  /** Inserting a tenant that is active already is a refusal; a send into a full channel is silently lost. */
  function Next(e: Engine, a: Action): Engine
    requires Enabled(e, a)
  {
    match a
    case Insert(t) => if t in e.active then e else e.(active := e.active + {t}, inFlight := e.inFlight + [t])
    case Send(i) =>
      var e' := e.(inFlight := Remove(e.inFlight, i));
      if |e.queue| < CAPACITY then e'.(queue := e.queue + [e.inFlight[i]])
      else e'.(dropped := e.dropped + {e.inFlight[i]})
    case Receive => e.(queue := e.queue[1..], running := [e.queue[0]])
    case Finish => e.(active := e.active - {e.running[0]}, running := e.running[1..])
  }

  /** What `submit` returns to its caller: true unless the tenant was active. */
  predicate Accepts(e: Engine, t: Tenant) {
    t !in e.active
  }

  /** The number of places a tenant is in. */
  function Places(e: Engine, t: Tenant): nat {
    multiset(e.inFlight)[t] + multiset(e.queue)[t] + multiset(e.running)[t] + (if t in e.dropped then 1 else 0)
  }

  /** Every active tenant is in exactly one place, and no other tenant is in any. */
  ghost predicate Balanced(e: Engine) {
    && |e.running| <= 1 && |e.queue| <= CAPACITY
    && forall t :: Counted(e, t)
  }

  lemma RemoveCounts(s: seq<Tenant>, i: nat, t: Tenant)
    requires i < |s|
    ensures multiset(s)[t] == multiset(Remove(s, i))[t] + (if s[i] == t then 1 else 0)
  {
    assert s == s[..i] + ([s[i]] + s[i + 1..]);
  }

  lemma HeadCounts(s: seq<Tenant>, t: Tenant)
    requires s != []
    ensures multiset(s)[t] == multiset(s[1..])[t] + (if s[0] == t then 1 else 0)
  {
    assert s == [s[0]] + s[1..];
  }

  lemma LastCounts(s: seq<Tenant>, last: Tenant, t: Tenant)
    ensures multiset(s + [last])[t] == multiset(s)[t] + (if last == t then 1 else 0)
  {
  }

  /** A tenant's places match its membership in the shared set. */
  predicate Counted(e: Engine, t: Tenant) {
    Places(e, t) == if t in e.active then 1 else 0
  }

  lemma SendKeepsCount(e: Engine, i: nat, t: Tenant)
    requires i < |e.inFlight| && Counted(e, t)
    ensures Counted(Next(e, Send(i)), t)
  {
    hide Remove;
    var u := e.inFlight[i];
    RemoveCounts(e.inFlight, i, t);
    LastCounts(e.queue, u, t);
    if u == t {
      assert multiset(e.inFlight)[t] >= 1;
    }
  }

  lemma ReceiveKeepsCount(e: Engine, t: Tenant)
    requires Enabled(e, Receive) && Counted(e, t)
    ensures Counted(Next(e, Receive), t)
  {
    HeadCounts(e.queue, t);
    assert e.running == [] && multiset([e.queue[0]])[t] == if e.queue[0] == t then 1 else 0;
  }

  lemma FinishKeepsCount(e: Engine, t: Tenant)
    requires Enabled(e, Finish) && |e.running| <= 1 && Counted(e, t)
    ensures Counted(Next(e, Finish), t)
  {
    HeadCounts(e.running, t);
  }

  /** One step moves one tenant from one place to the next. */
  lemma StepKeepsCount(e: Engine, a: Action, t: Tenant)
    requires Balanced(e) && Enabled(e, a)
    ensures Counted(Next(e, a), t)
  {
    assert Counted(e, t);
    hide Balanced, Places;
    match a
    case Insert(u) => InsertKeepsCount(e, u, t);
    case Send(i) => SendKeepsCount(e, i, t);
    case Receive => ReceiveKeepsCount(e, t);
    case Finish =>
      assert |e.running| <= 1 by { OneRunning(e); }
      FinishKeepsCount(e, t);
  }

  lemma OneRunning(e: Engine)
    requires Balanced(e)
    ensures |e.running| <= 1
  {
  }

  lemma InsertKeepsCount(e: Engine, u: Tenant, t: Tenant)
    requires Counted(e, t)
    ensures Counted(Next(e, Insert(u)), t)
  {
    LastCounts(e.inFlight, u, t);
  }

  lemma StepKeepsBalance(e: Engine, a: Action)
    requires Balanced(e) && Enabled(e, a)
    ensures Balanced(Next(e, a))
  {
    hide Places, Counted;
    forall t
      ensures Counted(Next(e, a), t)
    {
      StepKeepsCount(e, a, t);
    }
  }

  predicate Possible(start: Engine, run: seq<Action>)
    decreases |run|, 0
  {
    run == [] ||
    (Possible(start, run[..|run| - 1]) && Enabled(After(start, run[..|run| - 1]), run[|run| - 1]))
  }

  function After(start: Engine, run: seq<Action>): Engine
    requires Possible(start, run)
    decreases |run|, 1
  {
    if run == [] then start else Next(After(start, run[..|run| - 1]), run[|run| - 1])
  }

  lemma {:induction false} AlwaysBalanced(start: Engine, run: seq<Action>)
    requires Balanced(start) && Possible(start, run)
    ensures Balanced(After(start, run))
    decreases |run|
  {
    hide Balanced, Enabled, Next;
    if run == [] {
    } else {
      AlwaysBalanced(start, run[..|run| - 1]);
      StepKeepsBalance(After(start, run[..|run| - 1]), run[|run| - 1]);
    }
  }

  /** A sequence in which every element occurs once has no repetitions. */
  lemma {:induction false} SinglesAreDistinct(s: seq<Tenant>)
    requires forall t :: multiset(s)[t] <= 1
    ensures Distinct(s)
  {
    if s == [] {
    } else {
      forall t
        ensures multiset(s[1..])[t] <= 1 && (t in s[1..] ==> t != s[0])
      {
        HeadCounts(s, t);
        assert multiset(s)[t] <= 1;
        assert t in s[1..] <==> multiset(s[1..])[t] >= 1;
      }
      SinglesAreDistinct(s[1..]);
      assert forall i :: 0 <= i < |s| - 1 ==> s[1..][i] == s[i + 1] && s[1..][i] in s[1..];
    }
  }

  /**
    The guard, in every interleaving: the jobs in flight, queued and running belong to pairwise
    distinct tenants, all of them active; and the only active tenants without a job are those whose
    job a full channel dropped.
   */
  lemma OneJobPerTenant(run: seq<Action>)
    requires Possible(Start(), run)
    ensures var e := After(Start(), run);
            var jobs := e.inFlight + e.queue + e.running;
            && Distinct(jobs)
            && (forall t :: t in jobs ==> t in e.active)
            && (forall t :: t in e.active <==> t in jobs || t in e.dropped)
            && (forall t :: t in e.dropped ==> t !in jobs)
  {
    hide After, Possible;
    AlwaysBalanced(Start(), run) by { StartBalanced(); }
    var e := After(Start(), run);
    var jobs := e.inFlight + e.queue + e.running;
    forall t: Tenant
      ensures multiset(jobs)[t] <= 1
      ensures t in e.active <==> t in jobs || t in e.dropped
      ensures t in e.dropped ==> t !in jobs
    {
      assert Counted(e, t);
      assert multiset(jobs)[t] == multiset(e.inFlight)[t] + multiset(e.queue)[t] + multiset(e.running)[t];
      assert t in jobs <==> multiset(jobs)[t] >= 1;
    }
    SinglesAreDistinct(jobs);
  }

  lemma StartBalanced()
    ensures Balanced(Start())
  {
  }

  /** The job a step puts into the channel, and the job it hands to the worker. */
  function Admitted(e: Engine, a: Action): seq<Tenant>
    requires Enabled(e, a)
  {
    if a.Send? && |e.queue| < 100 then [e.inFlight[a.i]] else []
  }

  function Started(e: Engine, a: Action): seq<Tenant>
    requires Enabled(e, a)
  {
    if a.Receive? then Next(e, a).running else []
  }

  /** The channel after a step: first in, first out. */
  lemma ChannelStep(e: Engine, a: Action)
    requires Enabled(e, a)
    ensures e.queue + Admitted(e, a) == Started(e, a) + Next(e, a).queue
  {
  }

  /** The tenants whose jobs got into the channel, in the order of their sends. */
  function Queued(run: seq<Action>): seq<Tenant>
    requires Possible(Start(), run)
    decreases |run|
  {
    if run == [] then []
    else Queued(run[..|run| - 1]) + Admitted(After(Start(), run[..|run| - 1]), run[|run| - 1])
  }

  /** The tenants whose jobs the worker took, in order. */
  function Taken(run: seq<Action>): seq<Tenant>
    requires Possible(Start(), run)
    decreases |run|
  {
    if run == [] then []
    else Taken(run[..|run| - 1]) + Started(After(Start(), run[..|run| - 1]), run[|run| - 1])
  }

  /** In every interleaving the worker takes the jobs in the order they were sent, and the others wait in that order. */
  lemma {:induction false} FirstComeFirstServed(run: seq<Action>)
    requires Possible(Start(), run)
    ensures Queued(run) == Taken(run) + After(Start(), run).queue
    decreases |run|
  {
    hide Enabled, Next, Admitted, Started;
    if run == [] {
    } else {
      var front, last := run[..|run| - 1], run[|run| - 1];
      FirstComeFirstServed(front);
      var e := After(Start(), front);
      ChannelStep(e, last);
      assert Queued(front) + Admitted(e, last) == Taken(front) + (e.queue + Admitted(e, last));
    }
  }

  /** An accepted job is in the channel after its send exactly when the channel was not full. */
  lemma AcceptedIsQueuedIff(run: seq<Action>, i: nat)
    requires Possible(Start(), run) && Enabled(After(Start(), run), Send(i))
    ensures var e := After(Start(), run);
            var t := e.inFlight[i];
            var e' := Next(e, Send(i));
            && (t in e'.queue <==> |e.queue| < 100)
            && (t in e'.dropped <==> |e.queue| >= 100)
  {
    hide After, Possible;
    AlwaysBalanced(Start(), run) by { StartBalanced(); }
    var e := After(Start(), run);
    var t := e.inFlight[i];
    assert Counted(e, t);
    assert multiset(e.inFlight)[t] >= 1;
    assert t in e.queue <==> multiset(e.queue)[t] >= 1;
  }

  /** A tenant whose job was dropped stays locked out: it is active, and refused, for ever after. */
  lemma {:induction false} DroppedStaysLocked(start: Engine, run: seq<Action>, t: Tenant)
    requires Balanced(start) && t in start.dropped && Possible(start, run)
    ensures t in After(start, run).dropped && !Accepts(After(start, run), t)
    decreases |run|
  {
    hide Balanced;
    AlwaysBalanced(start, run);
    if run == [] {
    } else {
      DroppedStaysLocked(start, run[..|run| - 1], t);
    }
    DroppedIsActive(After(start, run), t);
  }

  lemma DroppedIsActive(e: Engine, t: Tenant)
    requires Balanced(e) && t in e.dropped
    ensures !Accepts(e, t)
  {
    assert Counted(e, t);
  }

  lemma RunSnoc(start: Engine, run: seq<Action>, a: Action)
    requires Possible(start, run) && Enabled(After(start, run), a)
    ensures Possible(start, run + [a]) && After(start, run + [a]) == Next(After(start, run), a)
  {
    hide Enabled, Next;
    assert (run + [a])[..|run|] == run;
  }

  /** As many tenants as the channel holds submit, one after the other, before the worker takes a job. */
  lemma {:induction false} Fill(n: nat) returns (run: seq<Action>)
    requires n <= CAPACITY
    ensures Possible(Start(), run)
    ensures var e := After(Start(), run);
            e.inFlight == [] && |e.queue| == n && e.running == [] && forall t :: t in e.active ==> 0 <= t < n
  {
    if n == 0 {
      run := [];
    } else {
      run := Fill(n - 1);
      var e := After(Start(), run);
      RunSnoc(Start(), run, Insert(n - 1));
      RunSnoc(Start(), run + [Insert(n - 1)], Send(0));
      run := run + [Insert(n - 1)] + [Send(0)];
    }
  }

  /** A full channel happens: one more tenant is told its job is queued, the job is lost, and no later submit helps. */
  lemma AcceptedJobLost() returns (run: seq<Action>, tenant: Tenant)
    ensures Possible(Start(), run)
    ensures Accepts(After(Start(), run), tenant)
    ensures var e := Submitted(After(Start(), run), tenant);
            && tenant in e.dropped && tenant !in e.queue && tenant !in e.running
            && forall later :: Possible(e, later) ==> !Accepts(After(e, later), tenant)
  {
    hide Balanced;
    run := Fill(CAPACITY);
    tenant := CAPACITY;
    var e := After(Start(), run);
    var inserted := Next(e, Insert(tenant));
    RunSnoc(Start(), run, Insert(tenant));
    AcceptedIsQueuedIff(run + [Insert(tenant)], 0);
    RunSnoc(Start(), run + [Insert(tenant)], Send(0));
    var lost := Next(inserted, Send(0));
    assert lost == Submitted(e, tenant);
    AlwaysBalanced(Start(), run + [Insert(tenant)] + [Send(0)]) by { StartBalanced(); }
    forall later | Possible(lost, later)
      ensures !Accepts(After(lost, later), tenant)
    {
      DroppedStaysLocked(lost, later, tenant);
    }
  }

  /** Submitting without interruption: the insert and then the send. */
  function Submitted(e: Engine, t: Tenant): Engine {
    if Accepts(e, t) then
      var inserted := Next(e, Insert(t));
      Next(inserted, Send(|inserted.inFlight| - 1))
    else e
  }

  /** Taking a job and finishing it moves the channel on by one and frees the tenant. */
  lemma WhatWorkerDoes(e: Engine)
    requires Enabled(e, Receive)
    ensures Enabled(Next(e, Receive), Finish)
    ensures var e' := Next(Next(e, Receive), Finish);
            e' == e.(queue := e.queue[1..], active := e.active - {e.queue[0]})
  {
  }

  /** With no job anywhere, the active tenants are those whose job was dropped. */
  lemma OnlyDroppedActive(e: Engine)
    requires Balanced(e) && e.inFlight == [] && e.queue == [] && e.running == []
    ensures e.active == e.dropped
  {
    forall t: Tenant
      ensures t in e.active <==> t in e.dropped
    {
      assert Counted(e, t);
    }
  }

  /** The engine as the program has it: the shared set, the channel, and the job in the worker. */
  class BackfillEngine {
    var active: set<Tenant>
    var queue: seq<Tenant>
    var running: seq<Tenant>
    ghost var dropped: set<Tenant>

    constructor ()
      ensures Abs() == Start()
    {
      active, queue, running, dropped := {}, [], [], {};
    }

    ghost function Abs(): Engine
      reads this
    {
      Engine(active, [], queue, running, dropped)
    }

    /** Returns true whenever the tenant was free, even if the full channel then drops the job. */
    method Submit(t: Tenant) returns (accepted: bool)
      modifies this
      ensures accepted == Accepts(old(Abs()), t)
      ensures Abs() == Submitted(old(Abs()), t)
    {
      if t in active {
        return false;
      }
      active := active + {t};
      if |queue| < CAPACITY {
        queue := queue + [t];
      } else {
        dropped := dropped + {t};
      }
      return true;
    }

    method WorkerReceive()
      requires Enabled(Abs(), Receive)
      modifies this
      ensures Abs() == Next(old(Abs()), Receive)
    {
      running := [queue[0]];
      queue := queue[1..];
    }

    method WorkerFinish()
      requires Enabled(Abs(), Finish)
      modifies this
      ensures Abs() == Next(old(Abs()), Finish)
    {
      active := active - {running[0]};
      running := running[1..];
    }

    /**
      The worker's loop, until the channel is empty: it serves the queued jobs in order, each once,
      and leaves exactly the tenants of dropped jobs active.
     */
    method StartWorker() returns (ghost served: seq<Tenant>)
      requires Balanced(Abs()) && running == []
      modifies this
      ensures served == old(queue)
      ensures queue == [] && running == [] && dropped == old(dropped)
      ensures active == dropped && Balanced(Abs())
    {
      hide Balanced, Next;
      served := [];
      while queue != []
        invariant Balanced(Abs()) && running == [] && dropped == old(dropped)
        invariant served + queue == old(queue)
      {
        ghost var before := Abs();
        StepKeepsBalance(before, Receive);
        WhatWorkerDoes(before);
        StepKeepsBalance(Next(before, Receive), Finish);
        served := served + [queue[0]];
        WorkerReceive();
        WorkerFinish();
      }
      OnlyDroppedActive(Abs());
    }
  }
}
