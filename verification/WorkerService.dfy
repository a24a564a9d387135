/** What becomes of a connection: whether it is admitted, how each step moves it, and when it has been answered. */
module WorkerService {
  import opened Collections
  import opened WorkerModel
  import opened WorkerInvariant
  import opened WorkerTheorems

  // ---- Admission ----

  /** A connection is admitted exactly when there is room and no shutdown; it then is the newest. */
  lemma Admission(w: Worker, id: nat, fd: nat)
    requires Reachable(w) && Enabled(w, AddRequest(id, fd))
    ensures var v := Step(w, AddRequest(id, fd));
            && (id in v.accepted <==> !w.shutdown && |w.requests| < w.maxRequests)
            && (if id in v.accepted then v.requests == [Request(id, fd, Connect)] + w.requests && v.phase != Asleep
                else v == w)
  {
    ReachableInv(w);
    InvStep(w, AddRequest(id, fd));
  }

  /** Which refusal a caller is told of. */
  lemma Refusals(w: Worker)
    requires Reachable(w)
    ensures AddCode(w) == Ok <==> !w.shutdown && |w.requests| < w.maxRequests
    ensures AddCode(w) == Shutdown <==> w.shutdown
    ensures AddCode(w) == MaxRequestsExceeded <==> !w.shutdown && |w.requests| == w.maxRequests
  {
    ReachableInv(w);
  }

  /** From the shutdown on the worker does not sleep and no run admits a connection. */
  lemma ShutdownRefuses(w: Worker, es: seq<Event>)
    requires Reachable(w) && Enabled(w, GracefulShutdown) && CanRun(Step(w, GracefulShutdown), es)
    ensures var v := Run(Step(w, GracefulShutdown), es);
            v.shutdown && v.phase != Asleep && v.accepted == w.accepted && AddCode(v) == Shutdown
  {
    ReachableInv(w);
    InvStep(w, GracefulShutdown);
    ShutdownStays(Step(w, GracefulShutdown), es);
  }

  lemma {:induction false} ShutdownStays(w: Worker, es: seq<Event>)
    requires Inv(w) && w.shutdown && CanRun(w, es)
    ensures Inv(Run(w, es)) && Run(w, es).shutdown && Run(w, es).accepted == w.accepted
    decreases |es|
  {
    if es != [] {
      InvStep(w, es[0]);
      ShutdownStays(Step(w, es[0]), es[1..]);
    }
  }

  // ---- The steps of the worker, request by request ----

  /**
   Before `pselect` the sockets of all requests that read or write are watched. New connections start to read, but are
   watched from the next round on.
   */
  lemma Watches(w: Worker, e: Event)
    requires Reachable(w) && Enabled(w, e) && (e == LoopTop || e == Resume) && w.requests != []
    ensures var v := Step(w, e);
            && v.phase.Selecting? && |v.requests| == |w.requests|
            && forall k :: 0 <= k < |w.requests| ==>
                 var r, q := w.requests[k], v.requests[k];
                 && q == r.(state := if r.state == Connect then Read else r.state)
                 && (r.fd in v.phase.readFds <==> r.state == Read)
                 && (r.fd in v.phase.writeFds <==> r.state == Write)
  {
    ReachableInv(w);
    var v := Register(w);
    RegisterInv(w);
    forall k | 0 <= k < |w.requests|
      ensures w.requests[k].fd in v.phase.readFds <==> w.requests[k].state == Read
      ensures w.requests[k].fd in v.phase.writeFds <==> w.requests[k].state == Write
    {
      assert w.requests[k] in w.requests;
    }
  }

  /** Without a request the worker sleeps, or leaves if it is to shut down. */
  lemma WatchesNothing(w: Worker)
    requires Reachable(w) && Enabled(w, LoopTop) && w.requests == []
    ensures Step(w, LoopTop) == w.(phase := if w.shutdown then Exited else Asleep)
  {
    ReachableInv(w);
  }

  /** The same after a wakeup, except that then a worker without a request waits in `pselect`, on no socket. */
  lemma WakesToNothing(w: Worker)
    requires Reachable(w) && Enabled(w, Resume) && w.requests == []
    ensures Step(w, Resume) == w.(phase := if w.shutdown then Exited else Selecting({}, {}))
  {
    ReachableInv(w);
    assert Register(w).requests == [] && Register(w).phase == Selecting({}, {});
  }

  /** A sweep starts at the first request; an interrupted `pselect` starts the round again, a failed one ends it. */
  lemma SelectMoves(w: Worker, s: Selected)
    requires Reachable(w) && Enabled(w, Select(s))
    ensures var v := Step(w, Select(s));
            match s
            case Ready(readable, writable) =>
              && v == w.(phase := Sweeping(readable, writable, |w.requests|, AtRead))
              && (w.requests != [] ==> HasCurrent(v) && Current(v) == 0)
              && forall k :: 0 <= k < |w.requests| ==>
                   var r := w.requests[k];
                   (r.fd in readable ==> r.state == Read) && (r.fd in writable ==> r.state == Write)
            case Interrupted => v == w.(phase := Top)
            case Failed => v == w.(phase := Crashed)
  {
    ReachableInv(w);
  }

  /** What the read test makes of the current request: nothing if its socket is not readable. */
  lemma ReadMoves(w: Worker, reading: Reading)
    requires Reachable(w) && Enabled(w, ReadCurrent(reading))
    ensures var v, i := Step(w, ReadCurrent(reading)), Current(w);
            var r := w.requests[i];
            && v.requests == w.requests[i := v.requests[i]] && v.closed == w.closed
            && v.requests[i].id == r.id && v.requests[i].fd == r.fd
            && (if r.fd !in w.phase.readFds then v.requests[i].state == r.state && v.phase.stage == AtWrite
                else && r.state == Read
                     && (v.phase.stage == Fetched <==> reading == Fetch)
                     && v.fetching == (if reading == Fetch then w.fetching + {r.id} else w.fetching)
                     && (v.requests[i].state == Read <==> reading == Incomplete || reading == Fetch)
                     && (v.requests[i].state == Error <==> reading == Broken)
                     && (v.requests[i].state == Write <==> reading == Answered))
  {
    ReachableInv(w);
  }

  /** After QueueFile the current request waits; its file read is under way unless it has been overtaken. */
  lemma MarkMoves(w: Worker)
    requires Reachable(w) && Enabled(w, MarkWaiting)
    ensures var v, i := Step(w, MarkWaiting), Current(w);
            && v.requests == w.requests[i := w.requests[i].(state := Waiting)] && v.phase.stage == AtWrite
            && (w.requests[i].id in v.fetching <==> !Overtaken(w))
  {
    ReachableInv(w);
  }

  /** What the write test makes of it: it is closed and taken off the list, or stays. */
  lemma WriteMoves(w: Worker, complete: bool)
    requires Reachable(w) && Enabled(w, WriteCurrent(complete))
    ensures var v, i := Step(w, WriteCurrent(complete)), Current(w);
            var r := w.requests[i];
            if r.state == Error || (r.fd in w.phase.writeFds && complete) then
              v.requests == w.requests[..i] + w.requests[i + 1..] && v.closed == w.closed + [r.id]
            else
              && v.requests == w.requests && v.closed == w.closed
              && (r.fd in w.phase.writeFds ==> r.state == Write)
  {
    ReachableInv(w);
    assert FetchedAt(w, Current(w));
  }

  /** The end of a file read: its request, and no other, has its response ready, or could not get one. */
  lemma CallbackMoves(w: Worker, id: nat, ok: bool) returns (k: nat)
    requires Reachable(w) && Enabled(w, Callback(id, ok))
    ensures k < |w.requests| && w.requests[k].id == id
    ensures var r := w.requests[k].(state := if ok then Write else Error);
            Step(w, Callback(id, ok)) == w.(requests := w.requests[k := r], fetching := w.fetching - {id})
  {
    ReachableInv(w);
    IdsDistinct(w);
    k :| 0 <= k < |w.requests| && Ids(w.requests)[k] == id;
  }

  // ---- Answered requests ----

  /** A request is closed by a write that completes its response. */
  predicate Answers(w: Worker, e: Event, id: nat) {
    && Enabled(w, e) && e == WriteCurrent(true)
    && var r := w.requests[Current(w)];
       r.id == id && r.state == Write && r.fd in w.phase.writeFds
  }

  /** Every close that is not of a request in error is of one whose response went out. */
  lemma ClosedWasAnswered(w: Worker, e: Event, id: nat)
    requires Inv(w) && Enabled(w, e) && id !in w.closed && id in Step(w, e).closed
    ensures e.WriteCurrent? && w.requests[Current(w)].id == id
    ensures w.requests[Current(w)].state != Error ==> Answers(w, e, id)
  {
  }

  /** No read fails, no request is malformed, and the end of every file read finds the memory for a response. */
  predicate Smooth(e: Event) {
    e != ReadCurrent(Broken) && (e.Callback? ==> e.ok)
  }

  predicate NoError(w: Worker) {
    forall k :: 0 <= k < |w.requests| ==> w.requests[k].state != Error
  }

  lemma SmoothStep(w: Worker, e: Event)
    requires Inv(w) && Enabled(w, e) && NoError(w) && Smooth(e)
    ensures NoError(Step(w, e))
  {
  }

  /** In a run in which nothing goes wrong a request is closed by the write that completes its response only. */
  lemma {:induction false} AnsweredAt(w: Worker, es: seq<Event>, id: nat) returns (n: nat)
    requires Inv(w) && NoError(w) && CanRun(w, es) && (forall e | e in es :: Smooth(e))
    requires id !in w.closed && id in Run(w, es).closed
    ensures n < |es| && CanRun(w, es[..n]) && Answers(Run(w, es[..n]), es[n], id)
    decreases |es|
  {
    var v := Step(w, es[0]);
    if id in v.closed {
      n := 0;
      ClosedWasAnswered(w, es[0], id);
    } else {
      InvStep(w, es[0]);
      SmoothStep(w, es[0]);
      var m := AnsweredAt(v, es[1..], id);
      n := m + 1;
      assert es[..n] == [es[0]] + es[1..][..m];
      RunOne(w, es[0], es[1..][..m]);
    }
  }

  /** The same for runs from the start: when the worker has left, every connection it admitted was answered. */
  lemma EveryRequestIsAnswered(maxRequests: nat, es: seq<Event>, id: nat) returns (n: nat)
    requires CanRun(Init(maxRequests), es) && (forall e | e in es :: Smooth(e))
    requires var w := Run(Init(maxRequests), es); id in w.closed || (id in w.accepted && w.phase == Exited)
    ensures n < |es| && CanRun(Init(maxRequests), es[..n])
    ensures Answers(Run(Init(maxRequests), es[..n]), es[n], id)
  {
    var w := Run(Init(maxRequests), es);
    assert Reaches(maxRequests, es, w);
    ReachableInv(w);
    ClosedOnce(w, id);
    InitInv(maxRequests);
    n := AnsweredAt(Init(maxRequests), es, id);
  }
}
