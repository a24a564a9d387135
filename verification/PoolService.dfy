/** What becomes of a request to the reader pool: whether it is admitted, when it is taken, and how it ends. */
module PoolService {
  import opened CBytes
  import opened PoolModel
  import opened PoolInvariant
  import opened PoolTheorems

  // ---- Admission ----

  /** A request is admitted exactly when it is valid and there is room and no shutdown; it then is the newest. */
  lemma Admission(p: Pool, id: nat, valid: bool)
    requires Reachable(p) && Enabled(p, QueueFile(id, valid))
    ensures var q := Step(p, QueueFile(id, valid));
            && (id in q.accepted <==> valid && !p.shutdown && |p.requests| < p.maxRequests)
            && (if id in q.accepted then q.requests == [id] + p.requests && Asleep !in q.phases else q == p)
  {
    ReachableInv(p);
    InvStep(p, QueueFile(id, valid));
  }

  /** Which refusal a caller is told of: a bad parameter first, then a shutdown, then a full list. */
  lemma Refusals(p: Pool, valid: bool)
    requires Reachable(p)
    ensures QueueCode(p, valid) == Ok <==> valid && !p.shutdown && |p.requests| < p.maxRequests
    ensures QueueCode(p, valid) == InvalidParameter <==> !valid
    ensures QueueCode(p, valid) == Shutdown <==> valid && p.shutdown
    ensures QueueCode(p, valid) == MaxRequestsExceeded <==> valid && !p.shutdown && |p.requests| == p.maxRequests
  {
    ReachableInv(p);
  }

  /** From the shutdown on nobody sleeps and no run admits or cancels anything. */
  lemma ShutdownRefuses(p: Pool, es: seq<Event>)
    requires Reachable(p) && Enabled(p, GracefulShutdown) && CanRun(Step(p, GracefulShutdown), es)
    ensures var q := Run(Step(p, GracefulShutdown), es);
            && q.shutdown && Asleep !in q.phases
            && q.accepted == p.accepted && q.queuedCancels == p.queuedCancels && q.stopped == p.stopped
    ensures QueueCode(Run(Step(p, GracefulShutdown), es), true) == Shutdown
    ensures forall id :: CancelCode(Run(Step(p, GracefulShutdown), es), id) == Shutdown
  {
    ReachableInv(p);
    InvStep(p, GracefulShutdown);
    ShutdownStays(Step(p, GracefulShutdown), es);
  }

  lemma {:induction false} ShutdownStays(p: Pool, es: seq<Event>)
    requires Inv(p) && p.shutdown && CanRun(p, es)
    ensures var q := Run(p, es);
            && Inv(q) && q.shutdown
            && q.accepted == p.accepted && q.queuedCancels == p.queuedCancels && q.stopped == p.stopped
    decreases |es|
  {
    if es != [] {
      InvStep(p, es[0]);
      ShutdownStays(Step(p, es[0]), es[1..]);
    }
  }

  // ---- Order ----

  /** A worker takes the newest request; if its file cannot be opened, the request is over at once. */
  lemma TakesNewest(p: Pool, w: nat, openOk: bool)
    requires Reachable(p) && Enabled(p, Take(w, openOk)) && p.requests != []
    ensures var q, id := Step(p, Take(w, openOk)), p.requests[0];
            && q.requests == p.requests[1..]
            && if openOk then q.phases[w] == Busy(id) && q.slots[w] == Some(Pending(id, false)) && q.log == p.log
               else q.phases == p.phases && q.slots == p.slots && q.log == p.log + [Callback(id, FileNotFound)]
  {
    ReachableInv(p);
  }

  /** Without a request it goes to sleep, or leaves if the pool is shutting down. */
  lemma TakesNothing(p: Pool, w: nat, openOk: bool)
    requires Reachable(p) && Enabled(p, Take(w, openOk)) && p.requests == []
    ensures Step(p, Take(w, openOk)) == p.(phases := p.phases[w := if p.shutdown then Exited else Asleep])
  {
    ReachableInv(p);
  }

  /** Last in, first out: the request that was admitted last is the first to be read. */
  lemma LastInFirstOut(p: Pool, id: nat, w: nat)
    requires Reachable(p) && Enabled(p, QueueFile(id, true)) && w < |p.phases| && p.phases[w] == Ready
    requires !p.shutdown && |p.requests| < p.maxRequests
    ensures var q := Step(p, QueueFile(id, true));
            && Enabled(q, Take(w, true))
            && Step(q, Take(w, true)).phases[w] == Busy(id) && Step(q, Take(w, true)).requests == p.requests
  {
    var q := Step(p, QueueFile(id, true));
    ReachableInv(p);
    Admission(p, id, true);
    assert q.phases[w] == Ready && q.requests[1..] == p.requests;
  }

  // ---- The end of a request ----

  /**
   The callback of a read, and the counter that goes up with it. After an error found before the read itself the slot
   still points to the request.
   */
  lemma ReadEnds(p: Pool, w: nat, result: ReadResult) returns (o: Outcome)
    requires Reachable(p) && Enabled(p, Finish(w, result))
    ensures var q, file := Step(p, Finish(w, result)), p.slots[w].value;
            && p.phases[w] == Busy(file.id) && q.phases == p.phases[w := Ready]
            && q.log == p.log + [Callback(file.id, o)] && q.requests == p.requests
            && (o == Done <==> result == Bytes && !file.canceled)
            && (o == Canceled <==> result == BadDescriptor || (result == Bytes && file.canceled))
            && (o == FileNotFound <==> result == StatMissing) && (o == NotRegularFile <==> result == NotRegular)
            && (o == FileTooLarge <==> result == TooLarge)
            && (o == ReadingFile <==> result == StatFailed || result == ReadError)
    ensures var q := Step(p, Finish(w, result));
            && q.completed == p.completed + (if o == Done then 1 else 0)
            && q.canceled == p.canceled + (if o == Canceled then 1 else 0)
            && q.failed == p.failed + (if o != Done && o != Canceled then 1 else 0)
            && q.slots == if result in {StatMissing, StatFailed, NotRegular, TooLarge} then p.slots
                          else p.slots[w := None]
  {
    ReachableInv(p);
    o := OutcomeOf(result, p.slots[w].value.canceled);
  }

  predicate IsFor(slot: Option<Pending>, id: nat) {
    slot.Some? && slot.value.id == id
  }

  /** What a cancel finds, and what it does to the request: a queued one stays queued. */
  lemma CancelFinds(p: Pool, id: nat)
    requires Reachable(p)
    ensures Enabled(p, CancelFile(id)) && (CancelCode(p, id) == Shutdown <==> p.shutdown)
    ensures CancelCode(p, id) == Ok <==>
            !p.shutdown && (id in p.requests || exists w :: 0 <= w < |p.slots| && IsFor(p.slots[w], id))
    ensures var q := Step(p, CancelFile(id));
            && (CancelCode(p, id) != Ok ==> q == p)
            && q.requests == p.requests && q.phases == p.phases
            && (!p.shutdown && id in p.requests ==> q.log == p.log + [Callback(id, Canceled)] && q.slots == p.slots)
            && (!p.shutdown && id !in p.requests ==>
                  && q.log == p.log && |q.slots| == |p.slots|
                  && forall w :: 0 <= w < |p.slots| ==>
                       q.slots[w] == if IsFor(p.slots[w], id) then Some(Pending(id, true)) else p.slots[w])
  {
    ReachableInv(p);
    var w := SlotOf(p.slots, id);
    assert w < |p.slots| ==> IsFor(p.slots[w], id);
    assert Step(p, CancelFile(id)) == Cancel(p, id);
    forall v | 0 <= v < |p.slots| && IsFor(p.slots[v], id)
      ensures w == v
    {
      assert v >= w;
      assert v > w ==> !Owned(p.slots[v], p.slots[w].value.id);
    }
  }

  // ---- When nothing goes wrong ----

  /** No cancel, and every file is there and can be read. */
  predicate Smooth(e: Event) {
    !e.CancelFile? && (e.Take? ==> e.openOk) && (e.Finish? ==> e.result == Bytes)
  }

  /** Nothing has gone wrong so far, and nothing that is under way is going to. */
  predicate AllWell(p: Pool) {
    && p.queuedCancels == multiset{} && p.stopped == {}
    && (forall c | c in p.log :: c.outcome == Done)
    && forall w :: 0 <= w < |p.slots| && p.slots[w].Some? ==> !p.slots[w].value.canceled
  }

  lemma WellStep(p: Pool, e: Event)
    requires AllWell(p) && Enabled(p, e) && Smooth(e)
    ensures AllWell(Step(p, e))
  {
  }

  lemma {:induction false} WellRun(p: Pool, es: seq<Event>)
    requires AllWell(p) && CanRun(p, es) && forall e | e in es :: Smooth(e)
    ensures AllWell(Run(p, es))
    decreases |es|
  {
    if es != [] {
      WellStep(p, es[0]);
      WellRun(Step(p, es[0]), es[1..]);
    }
  }

  lemma {:induction false} AllDone(log: seq<Callback>)
    requires forall c | c in log :: c.outcome == Done
    ensures CallsOf(log, Completion) == |log| && CallsOf(log, Failure) == CallsOf(log, Cancellation) == 0
  {
    if log != [] {
      AllDone(log[..|log| - 1]);
    }
  }

  /**
   In every run in which nothing goes wrong each accepted request is queued, being read, or reported as done, once;
   when the pool has drained all of them have been read.
   */
  lemma EveryFileIsRead(maxRequests: nat, workers: nat, es: seq<Event>)
    requires maxRequests > 0 && workers > 0 && CanRun(Init(maxRequests, workers), es)
    requires forall e | e in es :: Smooth(e)
    ensures var p := Run(Init(maxRequests, workers), es);
            && (forall c | c in p.log :: c.outcome == Done)
            && p.failed == p.canceled == 0 && p.completed == |p.log|
            && (AllExited(p) ==> p.completed == |p.accepted| && forall id | id in p.accepted :: Calls(p.log, id) == 1)
  {
    var p := Run(Init(maxRequests, workers), es);
    WellRun(Init(maxRequests, workers), es);
    assert Reaches(maxRequests, workers, es, p);
    ReachableInv(p);
    AllDone(p.log);
    if AllExited(p) {
      Drained(p);
      ExactlyOnce(p);
    }
  }
}
