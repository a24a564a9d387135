/**
 src/server/worker.c in its own imperative form: requests are objects whose state is assigned in place, and
 the list loses entries while it is walked. Every method performs the steps of WorkerModel named in its
 contract, and Interleave performs any enabled sequence of them, so that what WorkerTheorems proves about
 runs of steps holds of every interleaving of these calls.
 */
module ServerWorker {
  import opened Collections
  import opened WorkerModel
  import opened WorkerInvariant
  import opened WorkerSweep

  class HttpRequest {
    const socketfd: nat
    var state: State
    /** Stands for the address of the request. */
    const id: nat

    constructor (socketfd: nat, id: nat)
      ensures this.socketfd == socketfd && this.id == id && state == Connect
    {
      this.socketfd, this.id, state := socketfd, id, Connect;
    }

    ghost function Value(): Request
      reads this`state
    {
      Request(id, socketfd, state)
    }
  }

  ghost function View(rs: seq<HttpRequest>): (v: seq<Request>)
    reads rs`state
    ensures |v| == |rs|
  {
    if rs == [] then [] else [rs[0].Value()] + View(rs[1..])
  }

  lemma FdsInSnoc(rs: seq<Request>, i: nat, state: State)
    requires i < |rs|
    ensures FdsIn(rs[..i + 1], state) == FdsIn(rs[..i], state) + if rs[i].state == state then {rs[i].fd} else {}
  {
    assert rs[..i + 1] == rs[..i] + [rs[i]];
  }

  /** The current values of some requests. */
  ghost predicate Hold(rs: seq<HttpRequest>, values: seq<Request>)
    reads rs`state
  {
    |rs| == |values| && forall i :: 0 <= i < |rs| ==> rs[i].Value() == values[i]
  }

  lemma HoldRemove(rs: seq<HttpRequest>, values: seq<Request>, i: nat)
    requires i < |rs| == |values| && Distinct(rs)
    requires forall j :: 0 <= j < |rs| && j != i ==> rs[j].Value() == values[j]
    ensures Hold(rs[..i] + rs[i + 1..], values[..i] + values[i + 1..]) && Distinct(rs[..i] + rs[i + 1..])
    ensures Elems(rs[..i] + rs[i + 1..]) <= Elems(rs)
  {
    var rest, left := rs[..i] + rs[i + 1..], values[..i] + values[i + 1..];
    forall j | 0 <= j < |rest|
      ensures rest[j] == rs[if j < i then j else j + 1] && left[j] == values[if j < i then j else j + 1]
    {
    }
  }

  lemma HoldChange(rs: seq<HttpRequest>, values: seq<Request>, i: nat)
    requires i < |rs| == |values|
    requires forall j :: 0 <= j < |rs| && j != i ==> rs[j].Value() == values[j]
    ensures Hold(rs, values[i := rs[i].Value()])
  {
  }

  lemma {:induction false} HoldIsView(rs: seq<HttpRequest>, values: seq<Request>)
    requires Hold(rs, values)
    ensures View(rs) == values
  {
    if rs != [] {
      HoldIsView(rs[1..], values[1..]);
      assert values == [values[0]] + values[1..];
    }
  }

  lemma {:induction false} ViewHolds(rs: seq<HttpRequest>)
    ensures Hold(rs, View(rs))
  {
    if rs != [] {
      ViewHolds(rs[1..]);
    }
  }

  class Worker {
    const maxRequests: nat
    /** The linked list of requests, from its head. */
    var requests: seq<HttpRequest>
    var currentRequests: int
    var shutdown: bool
    /** Where the worker thread is, with the locals of `_WorkerLoop`: the sets, and how far the sweep has come. */
    var phase: Phase
    ghost var fetching: set<nat>
    ghost var accepted: set<nat>
    ghost var closed: seq<nat>

    ghost function State(): WorkerModel.Worker
      reads this, requests`state
    {
      WorkerModel.Worker(maxRequests, View(requests), currentRequests, shutdown, phase, fetching, accepted, closed)
    }

    constructor (maxRequests: nat)
      requires maxRequests > 0
      ensures State() == Init(maxRequests) && Distinct(requests) && Inv(State())
    {
      this.maxRequests, requests, currentRequests, shutdown := maxRequests, [], 0, false;
      phase, fetching, accepted, closed := Top, {}, {}, [];
      new;
      InitInv(maxRequests);
    }

    /** `AddRequest`; `id` is the address of the new request. */
    method AddRequest(socketfd: nat, id: nat) returns (code: Code)
      requires Distinct(requests)
      modifies this
      ensures Distinct(requests) && forall r | r in requests :: r in old(requests) || fresh(r)
      ensures code == AddCode(old(State())) && State() == Add(old(State()), id, socketfd)
    {
      if shutdown {
        return Shutdown;
      }
      if currentRequests >= maxRequests {
        return MaxRequestsExceeded;
      }
      var request := new HttpRequest(socketfd, id);
      requests := [request] + requests;
      currentRequests := currentRequests + 1;
      accepted := accepted + {id};
      if currentRequests == 1 {
        phase := Signaled(phase);
      }
      assert requests[1..] == old(requests);
      code := Ok;
    }

    /** `GracefullyShutdownWorker`, up to the join. */
    method GracefullyShutdown()
      modifies this`shutdown, this`phase
      ensures State() == Stop(old(State()))
    {
      shutdown := true;
      phase := Signaled(phase);
    }

    // ---- The head of the loop ----

    /** The walk before `pselect`: new requests start reading; sockets of those that read or write are collected. */
    method ConnectRequests() returns (readFds: set<nat>, writeFds: set<nat>)
      requires Distinct(requests)
      modifies Elems(requests)`state
      ensures var rs := old(View(requests));
              && readFds == FdsIn(rs, Read) && writeFds == FdsIn(rs, Write)
              && forall i :: 0 <= i < |requests| ==> requests[i].Value() == Connected(rs[i])
    {
      readFds, writeFds := {}, {};
      ghost var before := View(requests);
      ViewHolds(requests);
      var i := 0;
      while i < |requests|
        invariant 0 <= i <= |requests| == |before|
        invariant forall j :: 0 <= j < |requests| ==>
          requests[j].Value() == if j < i then Connected(before[j]) else before[j]
        invariant readFds == FdsIn(before[..i], Read) && writeFds == FdsIn(before[..i], Write)
      {
        var r := requests[i];
        FdsInSnoc(before, i, Read);
        FdsInSnoc(before, i, Write);
        match r.state {
          case Connect => r.state := Read;
          case Read => readFds := readFds + {r.socketfd};
          case Write => writeFds := writeFds + {r.socketfd};
          case _ =>
        }
        i := i + 1;
      }
      assert before[..i] == before;
    }

    method RegisterRequests()
      requires Distinct(requests)
      modifies this`phase, Elems(requests)`state
      ensures requests == old(requests)
      ensures State() == Register(old(State()))
    {
      ghost var registered := Register(State());
      var readFds, writeFds := ConnectRequests();
      phase := Selecting(readFds, writeFds);
      HoldIsView(requests, registered.requests);
    }

    /** From the top of the loop to `pthread_cond_wait` or `pselect`. */
    method LoopTop()
      requires Distinct(requests)
      modifies this`phase, Elems(requests)`state
      ensures requests == old(requests)
      ensures State() == LoopHead(old(State()))
    {
      if shutdown && currentRequests == 0 {
        phase := Exited;
      } else if currentRequests == 0 {
        phase := Asleep;
      } else {
        RegisterRequests();
      }
    }

    /** `pthread_cond_wait` returns without a signal. */
    method Awaken()
      modifies this`phase
      ensures State() == old(State()).(phase := Woken)
    {
      phase := Woken;
    }

    /** What follows `pthread_cond_wait`. */
    method Resume()
      requires Distinct(requests)
      modifies this`phase, Elems(requests)`state
      ensures requests == old(requests)
      ensures State() == AfterWait(old(State()))
    {
      if shutdown && currentRequests == 0 {
        phase := Exited;
      } else {
        RegisterRequests();
      }
    }

    /** What follows `pselect`, up to the start of the sweep. */
    method Selected(selected: Selected)
      modifies this`phase
      ensures State() == AfterSelect(old(State()), selected)
    {
      match selected {
        case Ready(readable, writable) => phase := Sweeping(readable, writable, |requests|, AtRead);
        case Interrupted => phase := Top;
        case Failed => phase := Crashed;
      }
    }

    // ---- The sweep ----

    /** `_ReadRequest`, up to the call of QueueFile when the file has to be fetched. */
    method ReadRequest(request: HttpRequest, reading: Reading)
      modifies request`state, this`fetching
      ensures request.state == if reading.Fetch? then Read else StateAfter(reading)
      ensures fetching == old(fetching) + if reading.Fetch? then {request.id} else {}
    {
      request.state := Read;
      match reading
      case Incomplete =>
      case Broken => request.state := Error;
      case Answered => request.state := Write;
      case Fetch => fetching := fetching + {request.id};
    }

    /** `_WriteRequest`: a failed write is not told apart from an unfinished one. */
    method WriteRequest(request: HttpRequest, complete: bool)
      modifies request`state
      ensures request.state == if complete then Done else Write
    {
      request.state := Write;
      if complete {
        request.state := Done;
      }
    }

    /** `_DoneRequest`, `_ErrorRequest` and `_DeleteRequest`: close the socket and unlink the entry. */
    method DeleteRequest(request: HttpRequest, ghost i: nat)
      requires i < |requests| && requests[i] == request && request !in requests[..i]
      modifies this`requests, this`currentRequests, this`closed
      ensures requests == old(requests[..i] + requests[i + 1..])
      ensures currentRequests == old(currentRequests) - 1 && closed == old(closed) + [request.id]
    {
      closed := closed + [request.id];
      if requests[0] == request {
        requests := requests[1..];
        currentRequests := currentRequests - 1;
        return;
      }
      var entry := 0;
      while entry + 1 < |requests|
        invariant 0 <= entry < i
      {
        if requests[entry + 1] == request {
          requests := requests[..entry + 1] + requests[entry + 2..];
          currentRequests := currentRequests - 1;
          return;
        }
        entry := entry + 1;
      }
    }

    /** The read test of the current entry. */
    method ReadCurrent(reading: Reading)
      requires Distinct(requests) && HasCurrent(State())
      modifies this`phase, this`fetching, Elems(requests)`state
      ensures requests == old(requests)
      ensures State() == ReadEntry(old(State()), reading)
    {
      ghost var goal := ReadEntry(State(), reading);
      ViewHolds(requests);
      var i := |requests| - phase.todo;
      if requests[i].socketfd in phase.readFds {
        ReadRequest(requests[i], reading);
        phase := phase.(stage := if reading.Fetch? then Fetched else AtWrite);
      } else {
        phase := phase.(stage := AtWrite);
      }
      HoldIsView(requests, goal.requests);
    }

    /** The assignment after QueueFile. */
    method MarkWaiting()
      requires Distinct(requests) && HasCurrent(State())
      modifies this`phase, Elems(requests)`state
      ensures requests == old(requests)
      ensures State() == Mark(old(State()))
    {
      ghost var goal := Mark(State());
      ViewHolds(requests);
      requests[|requests| - phase.todo].state := Waiting;
      phase := phase.(stage := AtWrite);
      HoldIsView(requests, goal.requests);
    }

    /** The write test of the entry at `i`. */
    method TestWrite(i: nat, complete: bool)
      requires Distinct(requests) && i < |requests| && phase.Sweeping?
      modifies {requests[i]}`state
      ensures View(requests) == old(View(requests)[i := Written(View(requests)[i], phase.writeFds, complete)])
    {
      ghost var before := View(requests);
      ViewHolds(requests);
      if requests[i].socketfd in phase.writeFds {
        WriteRequest(requests[i], complete);
      }
      HoldChange(requests, before, i);
      HoldIsView(requests, before[i := Written(before[i], phase.writeFds, complete)]);
    }

    /** The entry at `i` goes if it has ended. */
    method DropEnded(i: nat)
      requires Distinct(requests) && i < |requests|
      modifies this`requests, this`currentRequests, this`closed
      ensures Distinct(requests) && Elems(requests) <= old(Elems(requests))
      ensures var (rs, r) := old((View(requests), View(requests)[i]));
              if Ended(r) then
                && View(requests) == rs[..i] + rs[i + 1..]
                && currentRequests == old(currentRequests) - 1 && closed == old(closed) + [r.id]
              else requests == old(requests) && currentRequests == old(currentRequests) && closed == old(closed)
    {
      ghost var before := View(requests);
      ViewHolds(requests);
      HoldRemove(requests, before, i);
      HoldIsView(requests[..i] + requests[i + 1..], before[..i] + before[i + 1..]);
      var r := requests[i];
      if r.state == Done || r.state == Error {
        DeleteRequest(r, i);
      }
    }

    /** The write test of the current entry, and its removal. What follows it in the list is current next. */
    method WriteCurrent(complete: bool)
      requires Distinct(requests) && HasCurrent(State())
      modifies this`phase, this`requests, this`currentRequests, this`closed, Elems(requests)`state
      ensures Distinct(requests) && Elems(requests) <= old(Elems(requests))
      ensures State() == WriteEntry(old(State()), complete)
    {
      var i := |requests| - phase.todo;
      TestWrite(i, complete);
      phase := phase.(stage := AtRead, todo := phase.todo - 1);
      DropEnded(i);
    }

    method EndSweep()
      modifies this`phase
      ensures State() == old(State()).(phase := Top)
    {
      phase := Top;
    }

    /**
     The critical section after `pselect`, when no callback runs during it. The list ends up as Swept says,
     every socket of SweptOut is closed once, and the count follows. It is a run of the model.
     */
    method Sweep(outcomes: seq<Outcome>)
      requires Distinct(requests) && phase.Sweeping? && phase.stage == AtRead
      requires phase.todo == |outcomes| == |requests|
      modifies this, Elems(requests)`state
      ensures Distinct(requests) && Elems(requests) <= old(Elems(requests))
      ensures State() == AfterSweep(old(State()), outcomes).(phase := Top)
      ensures CanRun(old(State()), EventsFrom(old(State()), outcomes) + [Event.EndSweep])
      ensures State() == Run(old(State()), EventsFrom(old(State()), outcomes) + [Event.EndSweep])
    {
      ghost var start := State();
      SweepIsRun(start, outcomes);
      WalkRequests(outcomes);
      WalkSweeps(start, outcomes);
      EndSweep();
    }

    /** The walk after `pselect`, entry by entry. */
    method WalkRequests(outcomes: seq<Outcome>)
      requires Distinct(requests) && phase.Sweeping? && phase.stage == AtRead
      requires phase.todo == |outcomes| == |requests|
      modifies this, Elems(requests)`state
      ensures Distinct(requests) && Elems(requests) <= old(Elems(requests))
      ensures State() == Walk(old(State()), outcomes)
    {
      ghost var start := State();
      var k := 0;
      while k < |outcomes|
        invariant 0 <= k <= |outcomes| && phase.Sweeping? && phase.stage == AtRead
        invariant phase.todo == |outcomes| - k <= |requests|
        invariant Distinct(requests) && Elems(requests) <= old(Elems(requests))
        invariant Walk(State(), outcomes[k..]) == Walk(start, outcomes)
      {
        assert outcomes[k..][1..] == outcomes[k + 1..];
        VisitCurrent(outcomes[k]);
        k := k + 1;
      }
    }

    /** One round of the walk. */
    method VisitCurrent(outcome: Outcome)
      requires Distinct(requests) && HasCurrent(State()) && phase.stage == AtRead
      modifies this, Elems(requests)`state
      ensures Distinct(requests) && Elems(requests) <= old(Elems(requests))
      ensures State() == AfterVisit(old(State()), outcome)
    {
      ghost var w := State();
      ReadRun(w, outcome);
      WriteRun(w, outcome);
      ReadCurrent(outcome.reading);
      if phase.stage == Fetched {
        MarkWaiting();
      }
      WriteCurrent(outcome.complete);
    }

    // ---- Callbacks ----

    /** `_ReadFileCallback`: it answers a file that could not be read too, unless that response cannot be prepared. */
    method ReadFileCallback(request: HttpRequest, readOk: bool, prepared: bool)
      requires request in requests
      requires forall i :: 0 <= i < |requests| ==> (requests[i].id == request.id <==> requests[i] == request)
      modifies request`state, this`fetching
      ensures State() == CallBack(old(State()), request.id, prepared)
    {
      ghost var called := CallBack(State(), request.id, prepared);
      ViewHolds(requests);
      fetching := fetching - {request.id};
      if !readOk {
        request.state := if prepared then Write else Error;
      } else if !prepared {
        request.state := Error;
      } else {
        request.state := Write;
      }
      HoldIsView(requests, called.requests);
    }

    /** The request at an address, which the callback got as its user data. */
    method RequestAt(id: nat) returns (request: HttpRequest)
      requires id in Ids(View(requests))
      ensures request in requests && request.id == id
    {
      ViewHolds(requests);
      var i :| 0 <= i < |requests| && requests[i].id == id;
      request := requests[i];
    }

    // ---- Any interleaving ----

    /** One step of whichever thread gets to run next. */
    method Perform(e: Event)
      requires Distinct(requests) && Inv(State()) && Enabled(State(), e)
      modifies this, Elems(requests)`state
      ensures Distinct(requests) && forall r | r in requests :: r in old(requests) || fresh(r)
      ensures State() == Step(old(State()), e)
    {
      match e {
        case AddRequest(id, fd) => var _ := AddRequest(fd, id);
        case GracefulShutdown => GracefullyShutdown();
        case LoopTop => LoopTop();
        case SpuriousWakeup => Awaken();
        case Resume => Resume();
        case Select(s) => Selected(s);
        case ReadCurrent(reading) => ReadCurrent(reading);
        case MarkWaiting => MarkWaiting();
        case WriteCurrent(complete) => WriteCurrent(complete);
        case EndSweep => EndSweep();
        case Callback(id, ok) => CallBackAt(id, ok);
      }
    }

    method CallBackAt(id: nat, ok: bool)
      requires Inv(State()) && id in fetching
      modifies this`fetching, Elems(requests)`state
      ensures State() == CallBack(old(State()), id, ok)
    {
      IdsDistinct(State());
      ViewHolds(requests);
      var request := RequestAt(id);
      ReadFileCallback(request, true, ok);
    }

    /** Any interleaving of these calls is a run of the model, so what holds of all runs holds of it. */
    method Interleave(es: seq<Event>)
      requires Distinct(requests) && Inv(State()) && CanRun(State(), es)
      modifies this, Elems(requests)`state
      ensures Distinct(requests) && forall r | r in requests :: r in old(requests) || fresh(r)
      ensures State() == Run(old(State()), es) && Inv(State())
      decreases |es|
    {
      if es != [] {
        InvStep(State(), es[0]);
        Perform(es[0]);
        Interleave(es[1..]);
      }
    }
  }
}
