/** What every step of the reader pool keeps. */
module PoolInvariant {
  import opened CBytes
  import opened PoolModel

  // ---- Counting ----

  /** Number of callbacks made for `id`. */
  function Calls(log: seq<Callback>, id: nat): nat {
    if log == [] then 0
    else Calls(log[..|log| - 1], id) + if log[|log| - 1].id == id then 1 else 0
  }

  function CallsOf(log: seq<Callback>, kind: Kind): nat {
    if log == [] then 0
    else CallsOf(log[..|log| - 1], kind) + if KindOf(log[|log| - 1].outcome) == kind then 1 else 0
  }

  function BusyCount(phases: seq<Phase>): nat {
    if phases == [] then 0
    else BusyCount(phases[..|phases| - 1]) + if phases[|phases| - 1].Busy? then 1 else 0
  }

  /** Number of workers that are reading for `id`. */
  function InFlight(phases: seq<Phase>, id: nat): nat {
    if phases == [] then 0
    else InFlight(phases[..|phases| - 1], id) + if phases[|phases| - 1] == Busy(id) then 1 else 0
  }

  function Queued(requests: seq<nat>, id: nat): nat {
    if requests == [] then 0 else Queued(requests[1..], id) + if requests[0] == id then 1 else 0
  }

  lemma CallsSnoc(log: seq<Callback>, c: Callback, id: nat)
    ensures Calls(log + [c], id) == Calls(log, id) + if c.id == id then 1 else 0
  {
    assert (log + [c])[..|log|] == log;
  }

  lemma CallsOfSnoc(log: seq<Callback>, c: Callback, kind: Kind)
    ensures CallsOf(log + [c], kind) == CallsOf(log, kind) + if KindOf(c.outcome) == kind then 1 else 0
  {
    assert (log + [c])[..|log|] == log;
  }

  lemma {:induction false} BusyChange(phases: seq<Phase>, w: nat, x: Phase)
    requires w < |phases|
    ensures BusyCount(phases[w := x]) + (if phases[w].Busy? then 1 else 0) ==
            BusyCount(phases) + if x.Busy? then 1 else 0
  {
    var n := |phases| - 1;
    if w == n {
      assert phases[w := x][..n] == phases[..n];
    } else {
      assert phases[w := x][..n] == phases[..n][w := x];
      BusyChange(phases[..n], w, x);
    }
  }

  lemma {:induction false} InFlightChange(phases: seq<Phase>, w: nat, x: Phase, id: nat)
    requires w < |phases|
    ensures InFlight(phases[w := x], id) + (if phases[w] == Busy(id) then 1 else 0) ==
            InFlight(phases, id) + if x == Busy(id) then 1 else 0
  {
    var n := |phases| - 1;
    if w == n {
      assert phases[w := x][..n] == phases[..n];
    } else {
      assert phases[w := x][..n] == phases[..n][w := x];
      InFlightChange(phases[..n], w, x, id);
    }
  }

  lemma {:induction false} BroadcastKeepsBusy(phases: seq<Phase>, id: nat)
    ensures BusyCount(Broadcast(phases)) == BusyCount(phases)
    ensures InFlight(Broadcast(phases), id) == InFlight(phases, id)
  {
    if phases != [] {
      var n := |phases| - 1;
      assert Broadcast(phases)[..n] == Broadcast(phases[..n]);
      BroadcastKeepsBusy(phases[..n], id);
    }
  }

  lemma {:induction false} QueuedNone(requests: seq<nat>, id: nat)
    ensures Queued(requests, id) == 0 <==> id !in requests
  {
    if requests != [] {
      QueuedNone(requests[1..], id);
    }
  }

  lemma {:induction false} InFlightNone(phases: seq<Phase>, id: nat)
    requires forall w :: 0 <= w < |phases| ==> phases[w] != Busy(id)
    ensures InFlight(phases, id) == 0
  {
    if phases != [] {
      InFlightNone(phases[..|phases| - 1], id);
    }
  }

  lemma {:induction false} BusyNone(phases: seq<Phase>)
    requires forall w :: 0 <= w < |phases| ==> !phases[w].Busy?
    ensures BusyCount(phases) == 0
  {
    if phases != [] {
      BusyNone(phases[..|phases| - 1]);
    }
  }

  // ---- The invariant ----

  /** The counters agree with the list, the workers and the callbacks, and the list is within its limit. */
  predicate Accounting(p: Pool) {
    && p.requestCount == |p.requests| <= p.maxRequests
    && p.pendingTasks == |p.requests| + BusyCount(p.phases)
    && p.total == |p.accepted| == p.completed + p.failed + p.canceled + p.pendingTasks
    && p.canceled >= 0
    && p.completed == CallsOf(p.log, Completion)
    && p.failed == CallsOf(p.log, Failure)
    && p.canceled + |p.queuedCancels| == CallsOf(p.log, Cancellation)
  }

  /** Every accepted request is queued, in flight or reported, and only a queued cancel reports it again. */
  ghost predicate Conserved(p: Pool) {
    forall id: nat :: ConservedFor(p, id)
  }

  ghost predicate ConservedFor(p: Pool, id: nat) {
    Calls(p.log, id) + Queued(p.requests, id) + InFlight(p.phases, id) ==
    (if id in p.accepted then 1 else 0) + p.queuedCancels[id]
  }

  /** Nobody sleeps on work or on a shutdown, and nobody leaves while there is work. */
  predicate Wakeups(p: Pool) {
    && (Asleep in p.phases ==> p.requests == [] && !p.shutdown)
    && (Exited in p.phases ==> p.requests == [] && p.shutdown)
  }

  predicate Owned(slot: Option<Pending>, id: nat) {
    slot.Some? && slot.value.id == id
  }

  /** A request id lives in at most one place: one list entry or one slot. A busy worker's slot is its own. */
  predicate Ownership(p: Pool) {
    && |p.slots| == |p.phases|
    && (forall i, j :: 0 <= i < j < |p.requests| ==> p.requests[i] != p.requests[j])
    && (forall v, w :: 0 <= v < w < |p.slots| && p.slots[v].Some? ==> !Owned(p.slots[w], p.slots[v].value.id))
    && (forall w :: 0 <= w < |p.slots| && p.slots[w].Some? ==> p.slots[w].value.id !in p.requests)
    && (forall w :: 0 <= w < |p.phases| && p.phases[w].Busy? ==> Owned(p.slots[w], p.phases[w].id))
    && (forall id | id in p.requests :: id in p.accepted)
    && (forall w :: 0 <= w < |p.slots| && p.slots[w].Some? ==> p.slots[w].value.id in p.accepted)
    && (forall c | c in p.log :: c.id in p.accepted)
    && (forall id | id in p.stopped :: id in p.accepted)
  }

  /** A completed request has left the list and every slot; a stopped one can no longer complete. */
  predicate Stops(p: Pool) {
    && (forall c | c in p.log && c.outcome == Done ::
          c.id !in p.stopped && c.id !in p.requests && forall w :: 0 <= w < |p.slots| ==> !Owned(p.slots[w], c.id))
    && (forall id | id in p.stopped :: id !in p.requests)
    && (forall w :: 0 <= w < |p.slots| && p.slots[w].Some? && p.slots[w].value.id in p.stopped ==>
          p.slots[w].value.canceled)
  }

  ghost predicate Inv(p: Pool) {
    Accounting(p) && Conserved(p) && Wakeups(p) && Ownership(p) && Stops(p)
  }

  lemma InitInv(maxRequests: nat, workerCount: nat)
    ensures Inv(Init(maxRequests, workerCount))
  {
    var p := Init(maxRequests, workerCount);
    BusyNone(p.phases);
    forall id: nat
      ensures InFlight(p.phases, id) == 0
    {
      InFlightNone(p.phases, id);
    }
  }

  // ---- Each critical section keeps it ----

  lemma LogSnoc(log: seq<Callback>, c: Callback)
    ensures var kind := KindOf(c.outcome);
            && CallsOf(log + [c], kind) == CallsOf(log, kind) + 1
            && forall k | k != kind :: CallsOf(log + [c], k) == CallsOf(log, k)
  {
    forall k { CallsOfSnoc(log, c, k); }
  }

  lemma QueueAccounting(p: Pool, id: nat, valid: bool)
    requires Accounting(p) && id !in p.accepted
    ensures Accounting(Queue(p, id, valid))
  {
    BroadcastKeepsBusy(p.phases, id);
  }

  lemma CancelAccounting(p: Pool, id: nat)
    requires Accounting(p)
    ensures Accounting(CancelQueued(p, id))
  {
    LogSnoc(p.log, Callback(id, Canceled));
  }

  lemma IdleAccounting(p: Pool, w: nat, x: Phase)
    requires Accounting(p) && w < |p.phases| && p.phases[w] == Ready && !x.Busy?
    ensures Accounting(p.(phases := p.phases[w := x]))
  {
    BusyChange(p.phases, w, x);
  }

  lemma OpenAccounting(p: Pool, w: nat)
    requires Accounting(p) && w < |p.phases| == |p.slots| && p.phases[w] == Ready && p.requests != []
    ensures Accounting(TakeNext(p, w, true))
  {
    BusyChange(p.phases, w, Busy(p.requests[0]));
  }

  lemma OpenFailureAccounting(p: Pool, w: nat)
    requires Accounting(p) && w < |p.phases| == |p.slots| && p.requests != []
    ensures Accounting(TakeNext(p, w, false))
  {
    LogSnoc(p.log, Callback(p.requests[0], FileNotFound));
  }

  lemma FinishAccounting(p: Pool, w: nat, result: ReadResult)
    requires Accounting(p) && w < |p.phases| == |p.slots| && p.phases[w].Busy? && p.slots[w].Some?
    ensures Accounting(FinishRead(p, w, result))
  {
    BusyChange(p.phases, w, Ready);
    LogSnoc(p.log, Callback(p.slots[w].value.id, OutcomeOf(result, p.slots[w].value.canceled)));
  }

  lemma AccountingStep(p: Pool, e: Event)
    requires Accounting(p) && Enabled(p, e)
    ensures Accounting(Step(p, e))
  {
    match e
    case QueueFile(id, valid) => QueueAccounting(p, id, valid);
    case CancelFile(id) => CancelAccounting(p, id);
    case GracefulShutdown => BroadcastKeepsBusy(p.phases, 0);
    case Take(w, openOk) =>
      if p.requestCount == 0 {
        IdleAccounting(p, w, if p.shutdown then Exited else Asleep);
      } else if openOk {
        OpenAccounting(p, w);
      } else {
        OpenFailureAccounting(p, w);
      }
    case Finish(w, result) => FinishAccounting(p, w, result);
    case SpuriousWakeup(w) => BusyChange(p.phases, w, Ready);
  }

  lemma QueueConserves(p: Pool, other: nat, valid: bool, id: nat)
    requires ConservedFor(p, id) && other !in p.accepted
    ensures ConservedFor(Queue(p, other, valid), id)
  {
    BroadcastKeepsBusy(p.phases, id);
    assert ([other] + p.requests)[1..] == p.requests;
  }

  lemma CancelConserves(p: Pool, other: nat, id: nat)
    requires ConservedFor(p, id)
    ensures ConservedFor(CancelQueued(p, other), id)
  {
    CallsSnoc(p.log, Callback(other, Canceled), id);
  }

  lemma TakeConserves(p: Pool, w: nat, openOk: bool, id: nat)
    requires Accounting(p) && ConservedFor(p, id) && w < |p.phases| == |p.slots| && p.phases[w] == Ready
    ensures ConservedFor(TakeNext(p, w, openOk), id)
  {
    if p.requestCount == 0 {
      InFlightChange(p.phases, w, if p.shutdown then Exited else Asleep, id);
    } else if openOk {
      InFlightChange(p.phases, w, Busy(p.requests[0]), id);
    } else {
      CallsSnoc(p.log, Callback(p.requests[0], FileNotFound), id);
    }
  }

  lemma FinishConserves(p: Pool, w: nat, result: ReadResult, id: nat)
    requires ConservedFor(p, id) && w < |p.phases| == |p.slots|
    requires p.phases[w].Busy? && Owned(p.slots[w], p.phases[w].id)
    ensures ConservedFor(FinishRead(p, w, result), id)
  {
    InFlightChange(p.phases, w, Ready, id);
    CallsSnoc(p.log, Callback(p.slots[w].value.id, OutcomeOf(result, p.slots[w].value.canceled)), id);
  }

  lemma ConservedStep(p: Pool, e: Event, id: nat)
    requires Accounting(p) && Ownership(p) && ConservedFor(p, id) && Enabled(p, e)
    ensures ConservedFor(Step(p, e), id)
  {
    match e
    case QueueFile(other, valid) => QueueConserves(p, other, valid, id);
    case CancelFile(other) => CancelConserves(p, other, id);
    case GracefulShutdown => BroadcastKeepsBusy(p.phases, id);
    case Take(w, openOk) => TakeConserves(p, w, openOk, id);
    case Finish(w, result) => FinishConserves(p, w, result, id);
    case SpuriousWakeup(w) => InFlightChange(p.phases, w, Ready, id);
  }

  lemma BroadcastWakes(phases: seq<Phase>)
    ensures Asleep !in Broadcast(phases)
    ensures Exited in Broadcast(phases) <==> Exited in phases
  {
    var b := Broadcast(phases);
    assert forall w :: 0 <= w < |phases| && phases[w] == Exited ==> b[w] == Exited;
  }

  lemma WakeupsStep(p: Pool, e: Event)
    requires Accounting(p) && Wakeups(p) && Enabled(p, e)
    ensures Wakeups(Step(p, e))
  {
    BroadcastWakes(p.phases);
  }

  lemma QueueOwnership(p: Pool, id: nat, valid: bool)
    requires Ownership(p) && id !in p.accepted
    ensures Ownership(Queue(p, id, valid))
  {}

  lemma CancelOwnership(p: Pool, id: nat)
    requires Ownership(p)
    ensures Ownership(Cancel(p, id))
  {}

  lemma TakeOwnership(p: Pool, w: nat, openOk: bool)
    requires Accounting(p) && Ownership(p) && w < |p.phases| && p.phases[w] == Ready
    ensures Ownership(TakeNext(p, w, openOk))
  {}

  lemma FinishOwnership(p: Pool, w: nat, result: ReadResult)
    requires Ownership(p) && w < |p.phases| && p.phases[w].Busy?
    ensures Ownership(FinishRead(p, w, result))
  {}

  lemma OwnershipStep(p: Pool, e: Event)
    requires Accounting(p) && Ownership(p) && Enabled(p, e)
    ensures Ownership(Step(p, e))
  {
    match e
    case QueueFile(id, valid) => QueueOwnership(p, id, valid);
    case CancelFile(id) => CancelOwnership(p, id);
    case GracefulShutdown =>
    case Take(w, openOk) => TakeOwnership(p, w, openOk);
    case Finish(w, result) => FinishOwnership(p, w, result);
    case SpuriousWakeup(w) =>
  }

  lemma CancelStops(p: Pool, id: nat)
    requires Ownership(p) && Stops(p)
    ensures Stops(Cancel(p, id))
  {}

  lemma TakeStops(p: Pool, w: nat, openOk: bool)
    requires Ownership(p) && Stops(p) && w < |p.phases|
    ensures Stops(TakeNext(p, w, openOk))
  {}

  lemma FinishStops(p: Pool, w: nat, result: ReadResult)
    requires Ownership(p) && Stops(p) && w < |p.phases| && p.phases[w].Busy?
    ensures Stops(FinishRead(p, w, result))
  {}

  lemma StopsStep(p: Pool, e: Event)
    requires Ownership(p) && Stops(p) && Enabled(p, e)
    ensures Stops(Step(p, e))
  {
    match e
    case QueueFile(id, valid) =>
    case CancelFile(id) => CancelStops(p, id);
    case GracefulShutdown =>
    case Take(w, openOk) => TakeStops(p, w, openOk);
    case Finish(w, result) => FinishStops(p, w, result);
    case SpuriousWakeup(w) =>
  }

  lemma InvStep(p: Pool, e: Event)
    requires Inv(p) && Enabled(p, e)
    ensures Inv(Step(p, e))
  {
    AccountingStep(p, e);
    forall id: nat { ConservedStep(p, e, id); }
    WakeupsStep(p, e);
    OwnershipStep(p, e);
    StopsStep(p, e);
  }

  /** Every reachable state of every run satisfies the invariant. */
  lemma {:induction false} InvRun(p: Pool, es: seq<Event>)
    requires Inv(p) && CanRun(p, es)
    ensures Inv(Run(p, es))
    decreases |es|
  {
    if es != [] {
      InvStep(p, es[0]);
      InvRun(Step(p, es[0]), es[1..]);
    }
  }
}
