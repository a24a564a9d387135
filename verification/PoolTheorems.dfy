/** What callers of the reader pool may rely on, over every run. */
module PoolTheorems {
  import opened PoolModel
  import opened PoolInvariant

  /** The states that some run of the pool reaches. */
  ghost predicate Reachable(p: Pool) {
    exists maxRequests: nat, workers: nat, es :: Reaches(maxRequests, workers, es, p)
  }

  ghost predicate Reaches(maxRequests: nat, workers: nat, es: seq<Event>, p: Pool) {
    && maxRequests > 0 && workers > 0
    && CanRun(Init(maxRequests, workers), es) && p == Run(Init(maxRequests, workers), es)
  }

  lemma {:induction false} SameWorkers(p: Pool, es: seq<Event>)
    requires CanRun(p, es)
    ensures |Run(p, es).phases| == |p.phases|
    decreases |es|
  {
    if es != [] {
      SameWorkers(Step(p, es[0]), es[1..]);
    }
  }

  lemma ReachableInv(p: Pool)
    requires Reachable(p)
    ensures Inv(p) && p.phases != []
  {
    var maxRequests: nat, workers: nat, es :| Reaches(maxRequests, workers, es, p);
    InitInv(maxRequests, workers);
    InvRun(Init(maxRequests, workers), es);
    SameWorkers(Init(maxRequests, workers), es);
  }

  // ---- No lost wakeup, no missed entry ----

  /** A sleeping worker has nothing to do, although only the empty-to-nonempty transition is broadcast. */
  lemma NoLostWakeup(p: Pool, w: nat)
    requires Reachable(p) && w < |p.phases| && p.phases[w] == Asleep
    ensures p.requests == [] && !p.shutdown
  {
    ReachableInv(p);
    assert p.phases[w] in p.phases;
  }

  /** The counter that guards the list is the length of the list, so the empty-entry branch is dead. */
  lemma EntryIsThere(p: Pool)
    requires Reachable(p)
    ensures p.requestCount == |p.requests| <= p.maxRequests
    ensures p.requestCount != 0 ==> p.requests != []
  {
    ReachableInv(p);
  }

  /** `GetReaderPoolStats`: every accepted request is in exactly one of the four published counters. */
  lemma StatsAddUp(p: Pool)
    requires Reachable(p)
    ensures |p.accepted| == p.total == p.completed + p.failed + p.canceled + p.pendingTasks
    ensures p.pendingTasks == |p.requests| + BusyCount(p.phases)
    ensures p.completed >= 0 && p.failed >= 0 && p.canceled >= 0 && p.pendingTasks >= 0
  {
    ReachableInv(p);
  }

  // ---- Draining ----

  predicate IsWorkerStep(e: Event) {
    e.Take? || e.Finish? || e.SpuriousWakeup?
  }

  function WorkerSteps(es: seq<Event>): nat {
    if es == [] then 0 else (if IsWorkerStep(es[0]) then 1 else 0) + WorkerSteps(es[1..])
  }

  function Weight(x: Phase): nat {
    match x
    case Ready => 1
    case Asleep => 1
    case Busy(_) => 2
    case Exited => 0
  }

  function Effort(phases: seq<Phase>): nat {
    if phases == [] then 0 else Effort(phases[..|phases| - 1]) + Weight(phases[|phases| - 1])
  }

  /** Work left before every worker has gone. */
  function Measure(p: Pool): nat {
    3 * |p.requests| + Effort(p.phases)
  }

  lemma {:induction false} EffortChange(phases: seq<Phase>, w: nat, x: Phase)
    requires w < |phases|
    ensures Effort(phases[w := x]) + Weight(phases[w]) == Effort(phases) + Weight(x)
  {
    var n := |phases| - 1;
    if w == n {
      assert phases[w := x][..n] == phases[..n];
    } else {
      assert phases[w := x][..n] == phases[..n][w := x];
      EffortChange(phases[..n], w, x);
    }
  }

  /** Once shutdown is requested, worker steps use up the measure and nothing else changes the pool. */
  lemma DrainStep(p: Pool, e: Event)
    requires Inv(p) && p.shutdown && Enabled(p, e)
    ensures Step(p, e).shutdown
    ensures IsWorkerStep(e) ==> Measure(Step(p, e)) < Measure(p)
    ensures !IsWorkerStep(e) ==> Step(p, e) == p
  {
    assert forall w :: 0 <= w < |p.phases| ==> p.phases[w] in p.phases;
    match e
    case QueueFile(_, _) =>
    case CancelFile(_) =>
    case GracefulShutdown => assert Broadcast(p.phases) == p.phases;
    case Take(w, openOk) =>
      if p.requestCount == 0 {
        EffortChange(p.phases, w, Exited);
      } else {
        EffortChange(p.phases, w, Busy(p.requests[0]));
      }
    case Finish(w, result) => EffortChange(p.phases, w, Ready);
    case SpuriousWakeup(w) =>
  }

  /** After a shutdown no run contains more worker steps than the measure allows. */
  lemma {:induction false} DrainBound(p: Pool, es: seq<Event>)
    requires Inv(p) && p.shutdown && CanRun(p, es)
    ensures Run(p, es).shutdown
    ensures WorkerSteps(es) + Measure(Run(p, es)) <= Measure(p)
    decreases |es|
  {
    if es != [] {
      DrainStep(p, es[0]);
      InvStep(p, es[0]);
      DrainBound(Step(p, es[0]), es[1..]);
    }
  }

  predicate AllExited(p: Pool) {
    forall w :: 0 <= w < |p.phases| ==> p.phases[w] == Exited
  }

  /** A pool that is shutting down is never stuck: some worker can move until all have gone. */
  lemma DrainProgress(p: Pool) returns (e: Event)
    requires Inv(p) && p.shutdown && !AllExited(p)
    ensures Enabled(p, e) && IsWorkerStep(e)
  {
    var w :| 0 <= w < |p.phases| && p.phases[w] != Exited;
    assert p.phases[w] in p.phases;
    e := if p.phases[w] == Ready then Take(w, true) else Finish(w, Bytes);
  }

  /** When the joins of the shutdown return, nothing is queued, nothing is in flight, nothing is pending. */
  lemma Drained(p: Pool)
    requires Reachable(p) && AllExited(p)
    ensures p.shutdown && p.requests == [] && p.requestCount == 0 && p.pendingTasks == 0
    ensures p.total == p.completed + p.failed + p.canceled
    ensures forall id: nat :: InFlight(p.phases, id) == 0
  {
    ReachableInv(p);
    assert p.phases[0] in p.phases;
    BusyNone(p.phases);
    forall id: nat { InFlightNone(p.phases, id); }
  }

  lemma {:induction false} RunConcat(p: Pool, es: seq<Event>, fs: seq<Event>)
    requires CanRun(p, es) && CanRun(Run(p, es), fs)
    ensures CanRun(p, es + fs) && Run(p, es + fs) == Run(Run(p, es), fs)
    decreases |es|
  {
    if es == [] {
      assert es + fs == fs;
    } else {
      assert (es + fs)[1..] == es[1..] + fs;
      RunConcat(Step(p, es[0]), es[1..], fs);
    }
  }

  lemma ReachableRun(p: Pool, es: seq<Event>)
    requires Reachable(p) && CanRun(p, es)
    ensures Reachable(Run(p, es))
  {
    var maxRequests: nat, workers: nat, fs :| Reaches(maxRequests, workers, fs, p);
    RunConcat(Init(maxRequests, workers), fs, es);
    assert Reaches(maxRequests, workers, fs + es, Run(p, es));
  }

  /**
   Graceful shutdown: every run that cannot be continued by a worker is short, ends with all workers
   gone, and leaves nothing queued, in flight or pending.
   */
  lemma GracefulShutdownDrains(p: Pool, es: seq<Event>)
    requires Reachable(p) && p.shutdown && CanRun(p, es)
    requires forall e | Enabled(Run(p, es), e) :: !IsWorkerStep(e)
    ensures WorkerSteps(es) <= Measure(p)
    ensures AllExited(Run(p, es))
    ensures Run(p, es).requestCount == 0 && Run(p, es).pendingTasks == 0
    ensures forall id: nat :: InFlight(Run(p, es).phases, id) == 0
  {
    var q := Run(p, es);
    ReachableInv(p);
    DrainBound(p, es);
    ReachableRun(p, es);
    ReachableInv(q);
    if !AllExited(q) {
      var e := DrainProgress(q);
      assert false;
    }
    Drained(q);
  }

  // ---- One callback for each accepted request ----

  /** How often each request has been called back once the pool has drained, in every run. */
  lemma CallbackCount(p: Pool, id: nat)
    requires Reachable(p) && AllExited(p)
    ensures Calls(p.log, id) == (if id in p.accepted then 1 else 0) + p.queuedCancels[id]
  {
    Drained(p);
    ReachableInv(p);
    assert ConservedFor(p, id);
    QueuedNone(p.requests, id);
  }

  /** Exactly one callback for every accepted request, if and only if none was cancelled while queued. */
  lemma ExactlyOnce(p: Pool)
    requires Reachable(p) && AllExited(p)
    ensures (forall id | id in p.accepted :: Calls(p.log, id) == 1) <==> p.queuedCancels == multiset{}
  {
    forall id: nat
      ensures Calls(p.log, id) == (if id in p.accepted then 1 else 0) + p.queuedCancels[id]
    {
      CallbackCount(p, id);
    }
    if p.queuedCancels != multiset{} {
      var id :| id in p.queuedCancels;
      LoggedIsAccepted(p, id);
    }
  }

  lemma LoggedIsAccepted(p: Pool, id: nat)
    requires Reachable(p) && Calls(p.log, id) > 0
    ensures id in p.accepted
  {
    ReachableInv(p);
    var c := CallOf(p.log, id);
  }

  lemma {:induction false} CallOf(log: seq<Callback>, id: nat) returns (c: Callback)
    requires Calls(log, id) > 0
    ensures c in log && c.id == id
  {
    var n := |log| - 1;
    if log[n].id == id {
      c := log[n];
    } else {
      c := CallOf(log[..n], id);
    }
  }

  /** The smallest run in which a request that is cancelled while queued gets two callbacks. */
  lemma QueuedCancelCallsTwice()
    ensures var es := [QueueFile(7, true), CancelFile(7), Take(0, true), Finish(0, Bytes)];
            && CanRun(Init(1, 1), es)
            && Run(Init(1, 1), es).log == [Callback(7, Canceled), Callback(7, Done)]
  {
    var p0 := Init(1, 1);
    var p1 := Step(p0, QueueFile(7, true));
    var p2 := Step(p1, CancelFile(7));
    var p3 := Step(p2, Take(0, true));
    var p4 := Step(p3, Finish(0, Bytes));
    assert p4.log == [Callback(7, Canceled), Callback(7, Done)];
    var es := [QueueFile(7, true), CancelFile(7), Take(0, true), Finish(0, Bytes)];
    assert es[1..] == [CancelFile(7), Take(0, true), Finish(0, Bytes)];
    assert es[1..][1..] == [Take(0, true), Finish(0, Bytes)];
    assert es[1..][1..][1..] == [Finish(0, Bytes)];
    assert es[1..][1..][1..][1..] == [];
  }

  // ---- Cancelling a request that is being read ----

  lemma {:induction false} StoppedStays(p: Pool, es: seq<Event>)
    requires CanRun(p, es)
    ensures p.stopped <= Run(p, es).stopped
    decreases |es|
  {
    if es != [] {
      StoppedStays(Step(p, es[0]), es[1..]);
    }
  }

  /**
   A successful `CancelFile` on a request that is not queued: whatever happens next, that request is
   never reported as done, and by the time the pool has drained it has been reported.
   */
  lemma CanceledInFlight(p: Pool, id: nat, es: seq<Event>)
    requires Reachable(p) && CancelCode(p, id) == Ok && id !in p.requests
    requires CanRun(Cancel(p, id), es)
    ensures var q := Run(Cancel(p, id), es);
            && (forall c | c in q.log && c.id == id :: c.outcome != Done)
            && (AllExited(q) ==> exists c | c in q.log :: c.id == id && c.outcome != Done)
  {
    ReachableInv(p);
    assert Enabled(p, CancelFile(id)) && Step(p, CancelFile(id)) == Cancel(p, id);
    InvStep(p, CancelFile(id));
    InvRun(Cancel(p, id), es);
    StoppedStays(Cancel(p, id), es);
    SameWorkers(Cancel(p, id), es);
    var q := Run(Cancel(p, id), es);
    if AllExited(q) {
      DrainedCall(q, id);
    }
  }

  lemma DrainedCall(q: Pool, id: nat)
    requires Inv(q) && q.phases != [] && AllExited(q) && id in q.stopped
    ensures exists c | c in q.log :: c.id == id && c.outcome != Done
  {
    assert q.phases[0] in q.phases;
    assert ConservedFor(q, id);
    QueuedNone(q.requests, id);
    InFlightNone(q.phases, id);
    var c := CallOf(q.log, id);
  }
}
