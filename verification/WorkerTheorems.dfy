/** What the rest of the server may rely on about its workers, over every run. */
module WorkerTheorems {
  import opened Collections
  import opened WorkerModel
  import opened WorkerInvariant
  import opened WorkerSweep

  ghost predicate Reachable(w: Worker) {
    exists maxRequests: nat, es :: Reaches(maxRequests, es, w)
  }

  ghost predicate Reaches(maxRequests: nat, es: seq<Event>, w: Worker) {
    CanRun(Init(maxRequests), es) && w == Run(Init(maxRequests), es)
  }

  lemma ReachableInv(w: Worker)
    requires Reachable(w)
    ensures Inv(w)
  {
    var maxRequests: nat, es :| Reaches(maxRequests, es, w);
    InitInv(maxRequests);
    InvRun(Init(maxRequests), es);
  }

  // ---- Sleep, exit and bookkeeping ----

  /** A sleeping worker has no request and no shutdown to serve, although only the first request signals. */
  lemma NoLostWakeup(w: Worker)
    requires Reachable(w)
    ensures w.phase == Asleep ==> w.requests == [] && !w.shutdown
    ensures w.phase == Exited ==> w.requests == [] && w.shutdown
    ensures w.currentRequests == |w.requests| <= w.maxRequests
  {
    ReachableInv(w);
  }

  /** Every accepted connection is listed and open, or was closed exactly once and is listed no more. */
  lemma ClosedOnce(w: Worker, id: nat)
    requires Reachable(w)
    ensures Distinct(w.closed) && Distinct(Ids(w.requests))
    ensures id in w.accepted <==> id in w.closed || id in Ids(w.requests)
    ensures !(id in w.closed && id in Ids(w.requests))
  {
    ReachableInv(w);
    AtMostOnce(Ids(w.requests), w.closed, w.accepted);
    assert multiset(w.closed) + multiset(Ids(w.requests)) == multiset(w.accepted);
    AtMostOnce(w.closed, Ids(w.requests), w.accepted);
    assert id in multiset(w.accepted) <==> id in multiset(Ids(w.requests)) || id in multiset(w.closed);
  }

  /** The callback of a file read finds its request still allocated: requests are destroyed only when closed. */
  lemma CallbackFindsItsRequest(w: Worker, id: nat)
    requires Reachable(w) && id in w.fetching
    ensures id in Ids(w.requests) && id !in w.closed
  {
    ReachableInv(w);
    ClosedOnce(w, id);
  }

  /**
   A request is closed only by the sweep, when it is in error or its response went out completely on a socket
   that `pselect` reported writable.
   */
  lemma ClosingStep(w: Worker, e: Event, k: nat)
    requires Reachable(w) && Enabled(w, e) && k < |w.requests|
    ensures w.requests[k].id in Step(w, e).closed <==>
            && e.WriteCurrent? && k == Current(w)
            && (w.requests[k].state == Error || (w.requests[k].fd in w.phase.writeFds && e.complete))
  {
    ReachableInv(w);
    IdsDistinct(w);
    if e.WriteCurrent? {
      assert FetchedAt(w, Current(w));
    }
  }

  // ---- A whole sweep, whatever callbacks run in between ----

  /**
   From the start of a sweep to its end the write test gets to every listed request once, in order. Those that
   are closed on the way are missing from the list afterwards, the others are there in their old order, and
   each of the two lists is what the other leaves of the old one.
   */
  lemma WholeSweep(w: Worker, es: seq<Event>)
    requires Reachable(w) && w.phase.Sweeping? && w.phase.todo == |w.requests|
    requires CanRun(w, es) && StaysInSweep(es) && Run(w, es).phase.Sweeping? && Run(w, es).phase.todo == 0
    ensures var v := Run(w, es);
            && Visits(w, es) == Ids(w.requests)
            && w.closed <= v.closed
            && var gone := v.closed[|w.closed|..];
               && Ids(v.requests) == Outside(Ids(w.requests), gone)
               && gone == Outside(Ids(w.requests), Ids(v.requests))
  {
    var v := Run(w, es);
    ReachableInv(w);
    AtMostOnce(Ids(w.requests), w.closed, w.accepted);
    VisitsWhatIsLeft(w, es);
    var kept, gone := VisitsAreDealt(w, es);
    SweepEnds(w);
    SweepEnds(v);
    NothingAdded(Visits(w, es), kept);
    assert v.closed[|w.closed|..] == gone;
    DealtParts(Ids(w.requests), kept, gone);
  }

  // ---- The life cycle of a request ----

  /** The arrows of the life cycle. WRITE to DONE is missing: a request that is done leaves in the same step. */
  predicate Arrow(a: State, b: State) {
    || a == b
    || (a == Connect && b == Read)
    || (a == Read && (b == Waiting || b == Write || b == Error))
    || (a == Waiting && (b == Write || b == Error))
  }

  ghost predicate FollowsArrows(w: Worker, v: Worker) {
    forall i, j :: 0 <= i < |w.requests| && 0 <= j < |v.requests| && w.requests[i].id == v.requests[j].id ==>
      Arrow(w.requests[i].state, v.requests[j].state)
  }

  /** The callback has run between the return of QueueFile and the assignment that follows it. */
  predicate Overtaken(w: Worker) {
    HasCurrent(w) && w.phase.stage == Fetched && w.requests[Current(w)].id !in w.fetching
  }

  lemma SameOrder(w: Worker, v: Worker)
    requires Bookkeeping(w) && Ids(v.requests) == Ids(w.requests)
    ensures FollowsArrows(w, v) <==>
            forall k :: 0 <= k < |w.requests| ==> Arrow(w.requests[k].state, v.requests[k].state)
  {
    IdsDistinct(w);
    assert forall k :: 0 <= k < |w.requests| ==> Ids(v.requests)[k] == w.requests[k].id;
  }

  lemma AddForward(w: Worker, id: nat, fd: nat)
    requires Bookkeeping(w) && id !in w.accepted
    ensures FollowsArrows(w, Add(w, id, fd))
  {
    IdsDistinct(w);
  }

  lemma RemoveForward(w: Worker, complete: bool)
    requires Removes(w, complete)
    ensures FollowsArrows(w, WriteEntry(w, complete))
  {
    IdsDistinct(w);
    RemovedAt(w, complete);
  }

  lemma CallbackForward(w: Worker, id: nat, ok: bool)
    requires Inv(w) && id in w.fetching
    ensures FollowsArrows(w, CallBack(w, id, ok))
  {
    var v := CallBack(w, id, ok);
    assert Ids(v.requests) == Ids(w.requests);
    SameOrder(w, v);
    forall k | 0 <= k < |w.requests|
      ensures Arrow(w.requests[k].state, v.requests[k].state)
    {
      assert FetchedAt(w, k);
    }
  }

  lemma InPlaceForward(w: Worker, v: Worker)
    requires Bookkeeping(w) && Ids(v.requests) == Ids(w.requests)
    requires forall k :: 0 <= k < |w.requests| ==> Arrow(w.requests[k].state, v.requests[k].state)
    ensures FollowsArrows(w, v)
  {
    SameOrder(w, v);
  }

  lemma ReadForward(w: Worker, reading: Reading)
    requires Inv(w) && Enabled(w, ReadCurrent(reading))
    ensures FollowsArrows(w, ReadEntry(w, reading))
  {
    assert Ids(ReadEntry(w, reading).requests) == Ids(w.requests);
    InPlaceForward(w, ReadEntry(w, reading));
  }

  lemma MarkForward(w: Worker)
    requires Inv(w) && Enabled(w, MarkWaiting)
    ensures FollowsArrows(w, Mark(w)) <==> !Overtaken(w)
  {
    assert Ids(Mark(w).requests) == Ids(w.requests);
    SameOrder(w, Mark(w));
  }

  lemma KeepForward(w: Worker, complete: bool)
    requires Inv(w) && Enabled(w, WriteCurrent(complete)) && !Removes(w, complete)
    ensures FollowsArrows(w, WriteEntry(w, complete))
  {
    assert Ids(WriteEntry(w, complete).requests) == Ids(w.requests);
    InPlaceForward(w, WriteEntry(w, complete));
  }

  lemma RegisterForward(w: Worker)
    requires Inv(w)
    ensures FollowsArrows(w, Register(w))
  {
    assert Ids(Register(w).requests) == Ids(w.requests);
    InPlaceForward(w, Register(w));
  }

  /** Every step takes every request forward, except the one assignment that a callback has overtaken. */
  lemma ForwardStep(w: Worker, e: Event)
    requires Reachable(w) && Enabled(w, e)
    ensures FollowsArrows(w, Step(w, e)) <==> !(e.MarkWaiting? && Overtaken(w))
  {
    ReachableInv(w);
    match e
    case AddRequest(id, fd) => AddForward(w, id, fd);
    case LoopTop =>
      RegisterForward(w);
      InPlaceForward(w, w);
    case Resume =>
      RegisterForward(w);
      InPlaceForward(w, w);
    case ReadCurrent(reading) => ReadForward(w, reading);
    case MarkWaiting => MarkForward(w);
    case WriteCurrent(complete) =>
      if Removes(w, complete) {
        RemoveForward(w, complete);
      } else {
        KeepForward(w, complete);
      }
    case Callback(id, ok) => CallbackForward(w, id, ok);
    case _ => InPlaceForward(w, w);
  }

  /** The callback of the current entry runs before the entry is marked. */
  predicate Early(w: Worker, e: Event) {
    e.Callback? && HasCurrent(w) && w.phase.stage == Fetched && w.requests[Current(w)].id == e.id
  }

  /** Only such a callback overtakes the assignment. */
  lemma OvertakenStep(w: Worker, e: Event)
    requires Enabled(w, e) && !Overtaken(w)
    ensures Overtaken(Step(w, e)) <==> Early(w, e)
  {
    if e.Callback? {
      assert |Step(w, e).requests| == |w.requests|;
    }
  }

  predicate NoneEarly(w: Worker, es: seq<Event>)
    requires CanRun(w, es)
    decreases |es|
  {
    es == [] || (!Early(w, es[0]) && NoneEarly(Step(w, es[0]), es[1..]))
  }

  function Rank(s: State): nat {
    match s
    case Connect => 0
    case Read => 1
    case Waiting => 2
    case Write => 3
    case Done => 4
    case Error => 4
  }

  /** Without early callbacks a request that is still listed after any number of steps has only moved forward. */
  lemma {:induction false} ForwardRun(w: Worker, es: seq<Event>, i: nat, j: nat)
    requires Reachable(w) && !Overtaken(w) && CanRun(w, es) && NoneEarly(w, es)
    requires i < |w.requests| && j < |Run(w, es).requests| && w.requests[i].id == Run(w, es).requests[j].id
    ensures Rank(w.requests[i].state) <= Rank(Run(w, es).requests[j].state)
    decreases |es|
  {
    ReachableInv(w);
    IdsDistinct(w);
    if es != [] {
      var v := Step(w, es[0]);
      ReachableStep(w, es[0]);
      OvertakenStep(w, es[0]);
      ForwardStep(w, es[0]);
      var k := StillListed(w, es, i, j);
      ForwardRun(v, es[1..], k, j);
    }
  }

  lemma ReachableStep(w: Worker, e: Event)
    requires Reachable(w) && Enabled(w, e)
    ensures Reachable(Step(w, e))
  {
    var maxRequests: nat, es :| Reaches(maxRequests, es, w);
    RunConcat(Init(maxRequests), es, [e]);
    assert Reaches(maxRequests, es + [e], Step(w, e));
  }

  lemma {:induction false} HistoryGrows(w: Worker, es: seq<Event>, id: nat)
    requires CanRun(w, es)
    ensures id in w.closed ==> id in Run(w, es).closed
    ensures id in w.accepted ==> id in Run(w, es).accepted
    decreases |es|
  {
    if es != [] {
      HistoryGrows(Step(w, es[0]), es[1..], id);
    }
  }

  /** A request that is listed at both ends of a run was listed after its first step. */
  lemma StillListed(w: Worker, es: seq<Event>, i: nat, j: nat) returns (k: nat)
    requires Reachable(w) && CanRun(w, es) && es != []
    requires i < |w.requests| && j < |Run(w, es).requests| && w.requests[i].id == Run(w, es).requests[j].id
    ensures k < |Step(w, es[0]).requests| && Step(w, es[0]).requests[k].id == w.requests[i].id
  {
    var v, id := Step(w, es[0]), w.requests[i].id;
    ReachableStep(w, es[0]);
    ClosedOnce(w, id);
    ClosedOnce(v, id);
    assert Ids(w.requests)[i] == id;
    HistoryGrows(w, [es[0]], id);
    HistoryGrows(v, es[1..], id);
    ReachableInv(v);
    InvRun(v, es[1..]);
    IdsDistinct(Run(v, es[1..]));
    k :| 0 <= k < |v.requests| && Ids(v.requests)[k] == id;
  }

  // ---- The request that an early callback leaves behind ----

  /** It waits for a callback that has already been made. */
  predicate Stuck(w: Worker, k: nat) {
    k < |w.requests| && w.requests[k].state == Waiting && w.requests[k].id !in w.fetching
  }

  ghost predicate AnyStuck(w: Worker) {
    exists k: nat :: Stuck(w, k)
  }

  lemma WriteUnsticks(w: Worker, complete: bool, k: nat)
    requires Inv(w) && Enabled(w, WriteCurrent(complete)) && Stuck(WriteEntry(w, complete), k)
    ensures AnyStuck(w)
  {
    if Removes(w, complete) {
      RemovedAt(w, complete);
      assert Stuck(w, if k < Current(w) then k else k + 1);
    } else {
      assert Stuck(w, k);
    }
  }

  lemma AddUnsticks(w: Worker, id: nat, fd: nat, k: nat)
    requires Stuck(Add(w, id, fd), k)
    ensures AnyStuck(w)
  {
    assert Stuck(w, if AddCode(w) == Ok then k - 1 else k);
  }

  lemma StuckBefore(w: Worker, e: Event, k: nat)
    requires Inv(w) && Enabled(w, e) && Stuck(Step(w, e), k) && !(e.MarkWaiting? && Overtaken(w))
    ensures AnyStuck(w)
  {
    if e.WriteCurrent? {
      WriteUnsticks(w, e.complete, k);
    } else if e.AddRequest? {
      AddUnsticks(w, e.id, e.fd, k);
    } else {
      assert Stuck(w, k);
    }
  }

  /** Requests get stuck in no other way than by an assignment that a callback has overtaken. */
  lemma StuckStep(w: Worker, e: Event)
    requires Reachable(w) && Enabled(w, e) && !AnyStuck(w)
    ensures AnyStuck(Step(w, e)) <==> e.MarkWaiting? && Overtaken(w)
  {
    ReachableInv(w);
    if e.MarkWaiting? && Overtaken(w) {
      assert Stuck(Step(w, e), Current(w));
    } else if AnyStuck(Step(w, e)) {
      var k: nat :| Stuck(Step(w, e), k);
      StuckBefore(w, e, k);
    }
  }

  /** Where a stuck request goes in one step: it stays as it is. */
  lemma StuckStays(w: Worker, e: Event, k: nat) returns (j: nat)
    requires Inv(w) && Enabled(w, e) && Stuck(w, k)
    ensures Stuck(Step(w, e), j) && Step(w, e).requests[j].id == w.requests[k].id
  {
    match e
    case AddRequest(_, _) => j := if AddCode(w) == Ok then k + 1 else k;
    case WriteCurrent(complete) => j := StuckStaysInWrite(w, complete, k);
    case _ => j := StuckStaysInPlace(w, e, k);
  }

  lemma StuckStaysInWrite(w: Worker, complete: bool, k: nat) returns (j: nat)
    requires Inv(w) && Enabled(w, WriteCurrent(complete)) && Stuck(w, k)
    ensures var next := Step(w, WriteCurrent(complete));
            Stuck(next, j) && next.requests[j].id == w.requests[k].id
  {
    j := k;
    IdsDistinct(w);
    if Removes(w, complete) {
      RemovedAt(w, complete);
      j := if k < Current(w) then k else k - 1;
    }
  }

  lemma StuckStaysInPlace(w: Worker, e: Event, k: nat) returns (j: nat)
    requires Inv(w) && Enabled(w, e) && Stuck(w, k) && !e.AddRequest? && !e.WriteCurrent?
    ensures j == k && Stuck(Step(w, e), j) && Step(w, e).requests[j].id == w.requests[k].id
  {
    j := k;
    IdsDistinct(w);
  }

  /**
   From then on, whatever happens, the request is never answered or closed, and so the worker never gets to
   leave on a graceful shutdown.
   */
  lemma {:induction false} StuckForever(w: Worker, es: seq<Event>, k: nat) returns (j: nat)
    requires Reachable(w) && CanRun(w, es) && Stuck(w, k)
    ensures Stuck(Run(w, es), j) && Run(w, es).requests[j].id == w.requests[k].id
    ensures Run(w, es).phase != Exited
    decreases |es|
  {
    ReachableInv(w);
    j := k;
    if es != [] {
      j := StuckStays(w, es[0], k);
      ReachableStep(w, es[0]);
      j := StuckForever(Step(w, es[0]), es[1..], j);
    }
  }

  lemma RegisterOne(w: Worker, r: Request)
    requires w.requests == [r]
    ensures Register(w) == w.(requests := [Connected(r)], phase := Selecting(if r.state == Read then {r.fd} else {},
                                                                            if r.state == Write then {r.fd} else {}))
  {
    assert w.requests[0] == r && forall q :: q in w.requests ==> q == r;
    assert Register(w).phase.readFds == if r.state == Read then {r.fd} else {};
    assert Register(w).phase.writeFds == if r.state == Write then {r.fd} else {};
  }

  /** A worker with one request that reads on socket 5. */
  function Reader(): Worker {
    Worker(1, [Request(0, 5, Read)], 1, false, Top, {}, {0}, [])
  }

  function ConnectingRun(): seq<Event> {
    [AddRequest(0, 5), LoopTop, Select(Ready({}, {}))] + [ReadCurrent(Incomplete), WriteCurrent(false), EndSweep]
  }

  function OvertakingRun(): seq<Event> {
    [LoopTop, Select(Ready({5}, {})), ReadCurrent(Fetch), Callback(0, true), MarkWaiting]
  }

  lemma RunThree(w: Worker, e: Event, f: Event, g: Event)
    requires Enabled(w, e) && Enabled(Step(w, e), f) && Enabled(Step(Step(w, e), f), g)
    ensures CanRun(w, [e, f, g]) && Run(w, [e, f, g]) == Step(Step(Step(w, e), f), g)
  {
    RunOne(Step(Step(w, e), f), g, []);
    RunOne(Step(w, e), f, [g]);
    RunOne(w, e, [f, g]);
    assert [e, f, g] == [e] + [f, g] && [f, g] == [f] + [g] && [g] == [g] + [];
  }

  lemma Connecting()
    ensures CanRun(Init(1), ConnectingRun()) && Run(Init(1), ConnectingRun()) == Reader()
  {
    var w1 := Add(Init(1), 0, 5);
    RegisterOne(w1, Request(0, 5, Connect));
    RunThree(Init(1), AddRequest(0, 5), LoopTop, Select(Ready({}, {})));
    var w3 := Reader().(phase := Sweeping({}, {}, 1, AtRead));
    assert Step(Step(w1, LoopTop), Select(Ready({}, {}))) == w3;
    RunThree(w3, ReadCurrent(Incomplete), WriteCurrent(false), EndSweep);
    RunConcat(Init(1), ConnectingRun()[..3], ConnectingRun()[3..]);
  }

  lemma Overtaking()
    ensures CanRun(Reader(), OvertakingRun()) && Stuck(Run(Reader(), OvertakingRun()), 0)
  {
    var w, es := Reader(), OvertakingRun();
    RegisterOne(w, w.requests[0]);
    var w1 := Step(w, es[0]);
    var w2 := Step(w1, es[1]);
    var w3 := Step(w2, es[2]);
    var w4 := Step(w3, es[3]);
    var w5 := Step(w4, es[4]);
    assert es[4..] == [MarkWaiting] && es[5..] == [];
  }

  /** The smallest such run: the file is read before the worker gets to mark the request as waiting. */
  lemma CallbackOvertakes()
    ensures CanRun(Init(1), ConnectingRun() + OvertakingRun())
    ensures Stuck(Run(Init(1), ConnectingRun() + OvertakingRun()), 0)
  {
    Connecting();
    Overtaking();
    RunConcat(Init(1), ConnectingRun(), OvertakingRun());
  }
}
