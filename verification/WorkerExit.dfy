/** When a worker that is asked to shut down can get to leave. */
module WorkerExit {
  import opened Collections
  import opened WorkerModel
  import opened WorkerInvariant
  import opened WorkerTheorems
  import opened WorkerService

  // ---- What is left to do ----

  function StatesAhead(s: State): nat {
    match s
    case Connect => 4
    case Read => 3
    case Waiting => 2
    case Write => 1
    case Done => 1
    case Error => 1
  }

  function WorkAhead(rs: seq<Request>): nat {
    if rs == [] then 0 else StatesAhead(rs[0].state) + WorkAhead(rs[1..])
  }

  lemma {:induction false} LessAhead(rs: seq<Request>, ts: seq<Request>)
    requires |rs| == |ts|
    requires forall k :: 0 <= k < |rs| ==> StatesAhead(ts[k].state) <= StatesAhead(rs[k].state)
    ensures WorkAhead(ts) <= WorkAhead(rs)
    ensures rs != [] && StatesAhead(ts[0].state) < StatesAhead(rs[0].state) ==> WorkAhead(ts) < WorkAhead(rs)
  {
    if rs != [] {
      LessAhead(rs[1..], ts[1..]);
    }
  }

  lemma {:induction false} RemovedAhead(rs: seq<Request>, i: nat)
    requires i < |rs|
    ensures WorkAhead(rs[..i] + rs[i + 1..]) < WorkAhead(rs)
  {
    if i == 0 {
      assert rs[..0] + rs[1..] == rs[1..];
    } else {
      assert (rs[..i] + rs[i + 1..])[1..] == rs[1..][..i - 1] + rs[1..][i..];
      RemovedAhead(rs[1..], i - 1);
    }
  }

  // ---- The way out ----

  /** The worker is to shut down, and nothing has happened that keeps it from leaving. */
  ghost predicate MayLeave(w: Worker) {
    Reachable(w) && w.shutdown && !AnyStuck(w) && !Overtaken(w) && w.phase != Crashed
  }

  /** A step on the way out: `pselect` does not fail, no connection is added, no callback is early. */
  predicate Onward(w: Worker, e: Event) {
    && Enabled(w, e) && !Early(w, e) && !e.AddRequest? && e != Select(Failed)
    && (e.ReadCurrent? ==> e.reading == Answered) && (e.Callback? ==> e.ok && w.phase == Top)
  }

  lemma OnwardStep(w: Worker, e: Event)
    requires MayLeave(w) && Onward(w, e)
    ensures MayLeave(Step(w, e)) && WorkAhead(Step(w, e).requests) <= WorkAhead(w.requests)
  {
    ReachableInv(w);
    ReachableStep(w, e);
    StuckStep(w, e);
    OvertakenStep(w, e);
    StepAhead(w, e);
  }

  lemma StepAhead(w: Worker, e: Event)
    requires Inv(w) && Onward(w, e) && !Overtaken(w)
    ensures WorkAhead(Step(w, e).requests) <= WorkAhead(w.requests)
  {
    match e
    case WriteCurrent(complete) => WriteAhead(w, complete);
    case Callback(id, _) => CallbackAhead(w, id);
    case ReadCurrent(reading) => ReadAhead(w);
    case MarkWaiting => MarkAhead(w);
    case LoopTop => RegisterAhead(w);
    case Resume => RegisterAhead(w);
    case _ =>
  }

  lemma RegisterAhead(w: Worker)
    ensures WorkAhead(Register(w).requests) <= WorkAhead(w.requests)
  {
    LessAhead(w.requests, Register(w).requests);
  }

  lemma ReadAhead(w: Worker)
    requires HasCurrent(w)
    requires var r := w.requests[Current(w)]; r.fd in w.phase.readFds ==> r.state == Read
    ensures WorkAhead(ReadEntry(w, Answered).requests) <= WorkAhead(w.requests)
  {
    LessAhead(w.requests, ReadEntry(w, Answered).requests);
  }

  lemma MarkAhead(w: Worker)
    requires HasCurrent(w) && w.requests[Current(w)].state == Read
    ensures WorkAhead(Mark(w).requests) <= WorkAhead(w.requests)
  {
    LessAhead(w.requests, Mark(w).requests);
  }

  lemma WriteAhead(w: Worker, complete: bool)
    requires Inv(w) && Enabled(w, WriteCurrent(complete))
    ensures WorkAhead(WriteEntry(w, complete).requests) <= WorkAhead(w.requests)
  {
    if Removes(w, complete) {
      RemovedAhead(w.requests, Current(w));
    } else {
      LessAhead(w.requests, WriteEntry(w, complete).requests);
    }
  }

  lemma CallbackAhead(w: Worker, id: nat)
    requires Inv(w) && id in w.fetching && w.phase == Top
    ensures WorkAhead(CallBack(w, id, true).requests) <= WorkAhead(w.requests)
  {
    var v := CallBack(w, id, true);
    forall k | 0 <= k < |w.requests|
      ensures StatesAhead(v.requests[k].state) <= StatesAhead(w.requests[k].state)
    {
      assert FetchedAt(w, k);
    }
    LessAhead(w.requests, v.requests);
  }

  /** How far the worker is from the head of its loop. */
  function StepsToTop(w: Worker): nat {
    match w.phase
    case Selecting(_, _) => 1
    case Woken => 2
    case Sweeping(_, _, todo, stage) =>
      1 + 3 * todo + (match stage case AtRead => 2 case Fetched => 1 case AtWrite => 0)
    case _ => 0
  }

  /** The next step towards it. */
  function TowardsTop(w: Worker): Event {
    match w.phase
    case Selecting(_, _) => Select(Interrupted)
    case Sweeping(_, _, todo, stage) =>
      if todo == 0 then EndSweep
      else (match stage
            case AtRead => ReadCurrent(Answered)
            case Fetched => MarkWaiting
            case AtWrite => WriteCurrent(true))
    case _ => Resume
  }

  /** Every round can be brought to its end. */
  lemma {:induction false} ReachTop(w: Worker) returns (es: seq<Event>, v: Worker)
    requires MayLeave(w)
    ensures CanRun(w, es) && v == Run(w, es) && MayLeave(v) && (v.phase == Top || v.phase == Exited)
    ensures WorkAhead(v.requests) <= WorkAhead(w.requests)
    decreases StepsToTop(w)
  {
    ReachableInv(w);
    es, v := [], w;
    if w.phase != Top && w.phase != Exited {
      var e := TowardsTop(w);
      OnwardStep(w, e);
      es, v := ReachTop(Step(w, e));
      RunOne(w, e, es);
      es := [e] + es;
    }
  }

  /** At the head of the loop every file read in progress may end. */
  lemma {:induction false} EndReads(w: Worker) returns (es: seq<Event>, v: Worker)
    requires MayLeave(w) && w.phase == Top
    ensures CanRun(w, es) && v == Run(w, es) && MayLeave(v) && v.phase == Top && v.fetching == {}
    ensures WorkAhead(v.requests) <= WorkAhead(w.requests)
    decreases |w.fetching|
  {
    es, v := [], w;
    if w.fetching != {} {
      var id :| id in w.fetching;
      OnwardStep(w, Callback(id, true));
      es, v := EndReads(Step(w, Callback(id, true)));
      RunOne(w, Callback(id, true), es);
      es := [Callback(id, true)] + es;
    }
  }

  /** A step in which the first request gets ahead, and what is left then. */
  lemma FirstGetsAhead(w: Worker, e: Event)
    requires MayLeave(w) && Onward(w, e) && w.requests != [] && |Step(w, e).requests| == |w.requests|
    requires !e.Callback? && !e.WriteCurrent?
    requires StatesAhead(Step(w, e).requests[0].state) < StatesAhead(w.requests[0].state)
    ensures WorkAhead(Step(w, e).requests) < WorkAhead(w.requests)
  {
    ReachableInv(w);
    LessAhead(w.requests, Step(w, e).requests);
  }

  /** The first entry of a sweep with all watched sockets ready: it gets its answer, is closed, or was new. */
  lemma HeadVisit(w: Worker) returns (v: Worker)
    requires MayLeave(w) && w.requests != [] && w.phase.Sweeping? && w.phase.stage == AtRead
    requires w.phase.todo == |w.requests| && Enabled(w, ReadCurrent(Answered))
    ensures Enabled(Step(w, ReadCurrent(Answered)), WriteCurrent(true))
    ensures v == Step(Step(w, ReadCurrent(Answered)), WriteCurrent(true)) && MayLeave(v)
    ensures WorkAhead(v.requests) <= WorkAhead(w.requests)
    ensures var r := w.requests[0];
            r.state == Error || r.fd in w.phase.readFds || r.fd in w.phase.writeFds ==>
              WorkAhead(v.requests) < WorkAhead(w.requests)
  {
    var u, r := Step(w, ReadCurrent(Answered)), w.requests[0];
    ReachableInv(w);
    OnwardStep(w, ReadCurrent(Answered));
    OnwardStep(u, WriteCurrent(true));
    v := Step(u, WriteCurrent(true));
    if r.fd in w.phase.readFds {
      FirstGetsAhead(w, ReadCurrent(Answered));
    } else if r.state == Error || r.fd in w.phase.writeFds {
      RemovedAhead(u.requests, 0);
    }
  }

  /** One round, up to its first entry: that entry gets ahead or is closed. */
  lemma HeadGetsAhead(w: Worker) returns (es: seq<Event>, v: Worker)
    requires MayLeave(w) && w.phase == Top && w.fetching == {} && w.requests != []
    ensures CanRun(w, es) && v == Run(w, es) && MayLeave(v)
    ensures WorkAhead(v.requests) < WorkAhead(w.requests)
  {
    ReachableInv(w);
    Watches(w, LoopTop);
    var w1 := Step(w, LoopTop);
    var ready := Select(Ready(w1.phase.readFds, w1.phase.writeFds));
    OnwardStep(w, LoopTop);
    OnwardStep(w1, ready);
    var w2 := Step(w1, ready);
    v := HeadVisit(w2);
    if w.requests[0].state == Connect {
      FirstGetsAhead(w, LoopTop);
    } else if w.requests[0].state == Waiting {
      assert Stuck(w, 0);
      assert false;
    }
    RunOne(Step(w2, ReadCurrent(Answered)), WriteCurrent(true), []);
    RunOne(w2, ReadCurrent(Answered), [WriteCurrent(true)] + []);
    es := [ReadCurrent(Answered)] + ([WriteCurrent(true)] + []);
    RunOne(w1, ready, es);
    es := [ready] + es;
    RunOne(w, LoopTop, es);
    es := [LoopTop] + es;
  }

  lemma {:induction false} CanLeave(w: Worker) returns (es: seq<Event>)
    requires MayLeave(w)
    ensures CanRun(w, es) && Run(w, es).phase == Exited
    decreases WorkAhead(w.requests), 1
  {
    var v;
    es, v := ReachTop(w);
    if v.phase == Top {
      var more, u := EndReads(v);
      RunConcat(w, es, more);
      es := es + more;
      more := LeaveFromTop(u);
      RunConcat(w, es, more);
      es := es + more;
    }
  }

  lemma LeaveFromTop(w: Worker) returns (es: seq<Event>)
    requires MayLeave(w) && w.phase == Top && w.fetching == {}
    ensures CanRun(w, es) && Run(w, es).phase == Exited
    decreases WorkAhead(w.requests), 0
  {
    if w.requests == [] {
      WatchesNothing(w);
      RunOne(w, LoopTop, []);
      es := [LoopTop] + [];
    } else {
      var v;
      es, v := HeadGetsAhead(w);
      var more := CanLeave(v);
      RunConcat(w, es, more);
      es := es + more;
    }
  }

  // ---- No way out ----

  /** A crashed worker and one that is about to overwrite the result of a callback never get to leave. */
  lemma {:induction false} NeverLeaves(w: Worker, es: seq<Event>)
    requires Reachable(w) && CanRun(w, es) && (AnyStuck(w) || Overtaken(w) || w.phase == Crashed)
    ensures Run(w, es).phase != Exited
    decreases |es|
  {
    if AnyStuck(w) {
      var k: nat :| Stuck(w, k);
      var j := StuckForever(w, es, k);
    } else if es != [] {
      ReachableStep(w, es[0]);
      if Overtaken(w) {
        OvertakenGetsStuck(w, es[0]);
      }
      NeverLeaves(Step(w, es[0]), es[1..]);
    }
  }

  lemma OvertakenGetsStuck(w: Worker, e: Event)
    requires Reachable(w) && Enabled(w, e) && Overtaken(w)
    ensures Overtaken(Step(w, e)) || AnyStuck(Step(w, e))
  {
    if e.MarkWaiting? {
      assert Stuck(Step(w, e), Current(w));
    } else {
      assert e.Callback?;
    }
  }

  /**
   A worker that is to shut down can still get to leave if and only if no request waits for a callback that has been
   made, none is about to, and `pselect` has not failed.
   */
  lemma ShutdownCanEnd(w: Worker)
    requires Reachable(w) && w.shutdown
    ensures (exists es :: CanRun(w, es) && Run(w, es).phase == Exited) <==>
            !AnyStuck(w) && !Overtaken(w) && w.phase != Crashed
  {
    if MayLeave(w) {
      var es := CanLeave(w);
    }
    forall es | CanRun(w, es) && !MayLeave(w)
      ensures Run(w, es).phase != Exited
    {
      NeverLeaves(w, es);
    }
  }
}
