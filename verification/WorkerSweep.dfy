/** One whole sweep of src/server/worker.c over the request list, as a function of the list. */
module WorkerSweep {
  import opened WorkerModel

  /** How reading and writing turn out for one entry. */
  datatype Outcome = Outcome(reading: Reading, complete: bool)

  function StateAfter(reading: Reading): State {
    match reading
    case Incomplete => Read
    case Broken => Error
    case Answered => Write
    case Fetch => Waiting
  }

  function Visited(r: Request, readFds: set<nat>, writeFds: set<nat>, o: Outcome): Request {
    Written(if r.fd in readFds then r.(state := StateAfter(o.reading)) else r, writeFds, o.complete)
  }

  /** What a sweep leaves of the list. */
  function Swept(rs: seq<Request>, readFds: set<nat>, writeFds: set<nat>, os: seq<Outcome>): seq<Request>
    requires |rs| == |os|
  {
    if rs == [] then [] else
      var r := Visited(rs[0], readFds, writeFds, os[0]);
      (if Ended(r) then [] else [r]) + Swept(rs[1..], readFds, writeFds, os[1..])
  }

  /** The requests that it closes, in order. */
  function SweptOut(rs: seq<Request>, readFds: set<nat>, writeFds: set<nat>, os: seq<Outcome>): seq<nat>
    requires |rs| == |os|
  {
    if rs == [] then [] else
      (if Ended(Visited(rs[0], readFds, writeFds, os[0])) then [rs[0].id] else [])
      + SweptOut(rs[1..], readFds, writeFds, os[1..])
  }

  /** The requests that it makes wait for a file. */
  function SweptToFetch(rs: seq<Request>, readFds: set<nat>, os: seq<Outcome>): set<nat>
    requires |rs| == |os|
  {
    set i | 0 <= i < |rs| && rs[i].fd in readFds && os[i].reading.Fetch? :: rs[i].id
  }

  lemma ConservePush(x: nat, kept: seq<nat>, out: seq<nat>, ids: seq<nat>)
    requires multiset(kept) + multiset(out) == multiset(ids)
    ensures multiset([x] + kept) + multiset(out) == multiset([x] + ids)
    ensures multiset(kept) + multiset([x] + out) == multiset([x] + ids)
  {
  }

  /** Every entry is either kept or closed, and once. */
  lemma {:induction false} SweepConserves(rs: seq<Request>, readFds: set<nat>, writeFds: set<nat>, os: seq<Outcome>)
    requires |rs| == |os|
    ensures multiset(Ids(Swept(rs, readFds, writeFds, os))) + multiset(SweptOut(rs, readFds, writeFds, os)) ==
            multiset(Ids(rs))
  {
    if rs != [] {
      var r := Visited(rs[0], readFds, writeFds, os[0]);
      var rest, out := Swept(rs[1..], readFds, writeFds, os[1..]), SweptOut(rs[1..], readFds, writeFds, os[1..]);
      SweepConserves(rs[1..], readFds, writeFds, os[1..]);
      ConservePush(r.id, Ids(rest), out, Ids(rs[1..]));
      assert Ids(rs) == [r.id] + Ids(rs[1..]);
      assert Ids([r] + rest) == [r.id] + Ids(rest);
      assert [] + rest == rest && [] + out == out;
    }
  }

  lemma Associative<T>(a: seq<T>, b: seq<T>, c: seq<T>)
    ensures a + b + c == a + (b + c)
  {
  }

  lemma {:induction false} SweepSplits(rs: seq<Request>, readFds: set<nat>, writeFds: set<nat>, os: seq<Outcome>,
                                       k: nat)
    requires k <= |rs| == |os|
    ensures Swept(rs, readFds, writeFds, os) ==
            Swept(rs[..k], readFds, writeFds, os[..k]) + Swept(rs[k..], readFds, writeFds, os[k..])
    ensures SweptOut(rs, readFds, writeFds, os) ==
            SweptOut(rs[..k], readFds, writeFds, os[..k]) + SweptOut(rs[k..], readFds, writeFds, os[k..])
  {
    if k == 0 {
      assert rs[0..] == rs && os[0..] == os;
    } else {
      SweepSplits(rs[1..], readFds, writeFds, os[1..], k - 1);
      assert rs[1..][..k - 1] == rs[..k][1..] && os[1..][..k - 1] == os[..k][1..];
      assert rs[1..][k - 1..] == rs[k..] && os[1..][k - 1..] == os[k..];
      var r := Visited(rs[0], readFds, writeFds, os[0]);
      Associative(if Ended(r) then [] else [r], Swept(rs[..k][1..], readFds, writeFds, os[..k][1..]),
                  Swept(rs[k..], readFds, writeFds, os[k..]));
      Associative(if Ended(r) then [rs[0].id] else [], SweptOut(rs[..k][1..], readFds, writeFds, os[..k][1..]),
                  SweptOut(rs[k..], readFds, writeFds, os[k..]));
    }
  }

  /** Each entry stays, as its visit left it and in its place, unless it has ended; then it is closed instead. */
  lemma SweepAround(rs: seq<Request>, readFds: set<nat>, writeFds: set<nat>, os: seq<Outcome>, i: nat)
    requires i < |rs| == |os|
    ensures var r := Visited(rs[i], readFds, writeFds, os[i]);
            && Swept(rs, readFds, writeFds, os) ==
               Swept(rs[..i], readFds, writeFds, os[..i]) + (if Ended(r) then [] else [r])
               + Swept(rs[i + 1..], readFds, writeFds, os[i + 1..])
            && SweptOut(rs, readFds, writeFds, os) ==
               SweptOut(rs[..i], readFds, writeFds, os[..i]) + (if Ended(r) then [rs[i].id] else [])
               + SweptOut(rs[i + 1..], readFds, writeFds, os[i + 1..])
  {
    SweepSplits(rs, readFds, writeFds, os, i);
    assert rs[i..][1..] == rs[i + 1..] && os[i..][1..] == os[i + 1..];
  }

  // ---- A sweep that no callback interrupts, in steps ----

  function VisitEvents(r: Request, readFds: set<nat>, o: Outcome): seq<Event> {
    [ReadCurrent(o.reading)] + (if r.fd in readFds && o.reading.Fetch? then [MarkWaiting] else [])
    + [WriteCurrent(o.complete)]
  }

  function SweepEvents(rs: seq<Request>, readFds: set<nat>, os: seq<Outcome>): seq<Event>
    requires |rs| == |os|
  {
    if rs == [] then [] else VisitEvents(rs[0], readFds, os[0]) + SweepEvents(rs[1..], readFds, os[1..])
  }

  /** The state of the worker after a whole visit of its current entry. */
  function AfterVisit(w: Worker, o: Outcome): Worker
    requires HasCurrent(w)
  {
    var i := Current(w);
    var r := Visited(w.requests[i], w.phase.readFds, w.phase.writeFds, o);
    var v := w.(phase := w.phase.(todo := w.phase.todo - 1, stage := AtRead),
                fetching := w.fetching
                            + if w.requests[i].fd in w.phase.readFds && o.reading.Fetch? then {r.id} else {});
    if Ended(r) then
      v.(requests := w.requests[..i] + w.requests[i + 1..], currentRequests := w.currentRequests - 1,
         closed := w.closed + [r.id])
    else v.(requests := w.requests[i := r])
  }

  /** The state of the worker between the read test and the write test of its current entry. */
  function BeforeWrite(w: Worker, o: Outcome): (v: Worker)
    requires HasCurrent(w)
    ensures HasCurrent(v) && v.phase.stage == AtWrite && Current(v) == Current(w)
  {
    var i := Current(w);
    var r := w.requests[i];
    if r.fd !in w.phase.readFds then w.(phase := w.phase.(stage := AtWrite))
    else w.(requests := w.requests[i := r.(state := StateAfter(o.reading))], phase := w.phase.(stage := AtWrite),
            fetching := w.fetching + if o.reading.Fetch? then {r.id} else {})
  }

  lemma WriteRun(w: Worker, o: Outcome)
    requires HasCurrent(w) && w.phase.stage == AtRead
    ensures WriteEntry(BeforeWrite(w, o), o.complete) == AfterVisit(w, o)
  {
    assert WriteEntry(BeforeWrite(w, o), o.complete).requests == AfterVisit(w, o).requests;
  }

  lemma ReadRun(w: Worker, o: Outcome)
    requires HasCurrent(w) && w.phase.stage == AtRead
    ensures var fetches := w.requests[Current(w)].fd in w.phase.readFds && o.reading.Fetch?;
            && Enabled(w, ReadCurrent(o.reading))
            && var v := ReadEntry(w, o.reading);
               if fetches then Enabled(v, MarkWaiting) && Mark(v) == BeforeWrite(w, o) else v == BeforeWrite(w, o)
  {
  }

  lemma VisitRun(w: Worker, o: Outcome)
    requires HasCurrent(w) && w.phase.stage == AtRead
    ensures var es := VisitEvents(w.requests[Current(w)], w.phase.readFds, o);
            CanRun(w, es) && Run(w, es) == AfterVisit(w, o)
  {
    var last := [WriteCurrent(o.complete)];
    ReadRun(w, o);
    WriteRun(w, o);
    RunOne(BeforeWrite(w, o), last[0], []);
    assert last == [last[0]] + [];
    if w.requests[Current(w)].fd in w.phase.readFds && o.reading.Fetch? {
      RunOne(ReadEntry(w, o.reading), MarkWaiting, last);
      RunOne(w, ReadCurrent(o.reading), [MarkWaiting] + last);
      assert [ReadCurrent(o.reading)] + [MarkWaiting] + last == [ReadCurrent(o.reading)] + ([MarkWaiting] + last);
    } else {
      RunOne(w, ReadCurrent(o.reading), last);
      assert [ReadCurrent(o.reading)] + [] + last == [ReadCurrent(o.reading)] + last;
    }
  }

  /** The state of the worker after it has kept `kept` of the entries so far and visited the others, `rs`. */
  function AfterRest(w: Worker, kept: seq<Request>, rs: seq<Request>, os: seq<Outcome>): Worker
    requires w.phase.Sweeping? && |rs| == |os|
  {
    var (readFds, writeFds) := (w.phase.readFds, w.phase.writeFds);
    w.(requests := kept + Swept(rs, readFds, writeFds, os),
       currentRequests := w.currentRequests - |SweptOut(rs, readFds, writeFds, os)|,
       closed := w.closed + SweptOut(rs, readFds, writeFds, os),
       fetching := w.fetching + SweptToFetch(rs, readFds, os),
       phase := Sweeping(readFds, writeFds, 0, AtRead))
  }

  function AfterSweep(w: Worker, os: seq<Outcome>): Worker
    requires w.phase.Sweeping? && w.phase.todo == |os| <= |w.requests|
  {
    var n := |w.requests| - |os|;
    AfterRest(w, w.requests[..n], w.requests[n..], os)
  }

  lemma FetchFirst(rs: seq<Request>, readFds: set<nat>, os: seq<Outcome>)
    requires |rs| == |os| > 0
    ensures SweptToFetch(rs, readFds, os) ==
            (if rs[0].fd in readFds && os[0].reading.Fetch? then {rs[0].id} else {})
            + SweptToFetch(rs[1..], readFds, os[1..])
  {
    forall x | x in SweptToFetch(rs[1..], readFds, os[1..])
      ensures x in SweptToFetch(rs, readFds, os)
    {
      var i :| 0 <= i < |rs| - 1 && rs[1..][i].fd in readFds && os[1..][i].reading.Fetch? && rs[1..][i].id == x;
      assert rs[i + 1].id == x && os[i + 1] == os[1..][i];
    }
    forall x | x in SweptToFetch(rs, readFds, os)
      ensures x in (if rs[0].fd in readFds && os[0].reading.Fetch? then {rs[0].id} else {})
                   + SweptToFetch(rs[1..], readFds, os[1..])
    {
      var i :| 0 <= i < |rs| && rs[i].fd in readFds && os[i].reading.Fetch? && rs[i].id == x;
      if i > 0 {
        assert rs[1..][i - 1] == rs[i] && os[1..][i - 1] == os[i];
      }
    }
  }

  lemma VisitSplits(w: Worker, o: Outcome)
    requires HasCurrent(w)
    ensures var (v, n) := (AfterVisit(w, o), Current(w));
            var m := |v.requests| - v.phase.todo;
            && m >= 0 && v.requests[m..] == w.requests[n..][1..]
            && v.requests[..m] == w.requests[..n] + Stays(w.requests[n], w.phase.readFds, w.phase.writeFds, o)
  {
  }

  /** What one visit adds to the kept entries and does to the rest of the worker. */
  function Stays(r: Request, readFds: set<nat>, writeFds: set<nat>, o: Outcome): seq<Request> {
    var v := Visited(r, readFds, writeFds, o);
    if Ended(v) then [] else [v]
  }

  function Passed(w: Worker, r: Request, o: Outcome): Worker
    requires w.phase.Sweeping?
  {
    var v := w.(fetching := w.fetching + if r.fd in w.phase.readFds && o.reading.Fetch? then {r.id} else {});
    if Ended(Visited(r, w.phase.readFds, w.phase.writeFds, o)) then
      v.(closed := w.closed + [r.id], currentRequests := w.currentRequests - 1)
    else v
  }

  lemma RestStep(w: Worker, kept: seq<Request>, rs: seq<Request>, os: seq<Outcome>)
    requires w.phase.Sweeping? && |rs| == |os| > 0
    ensures var more := kept + Stays(rs[0], w.phase.readFds, w.phase.writeFds, os[0]);
            AfterRest(Passed(w, rs[0], os[0]), more, rs[1..], os[1..]) == AfterRest(w, kept, rs, os)
  {
    var readFds, writeFds := w.phase.readFds, w.phase.writeFds;
    FetchFirst(rs, readFds, os);
    if Ended(Visited(rs[0], readFds, writeFds, os[0])) {
      Associative(w.closed, [rs[0].id], SweptOut(rs[1..], readFds, writeFds, os[1..]));
      assert [] + Swept(rs[1..], readFds, writeFds, os[1..]) == Swept(rs[1..], readFds, writeFds, os[1..]);
      assert kept + [] == kept;
    } else {
      Associative(kept, [Visited(rs[0], readFds, writeFds, os[0])], Swept(rs[1..], readFds, writeFds, os[1..]));
      assert [] + SweptOut(rs[1..], readFds, writeFds, os[1..]) == SweptOut(rs[1..], readFds, writeFds, os[1..]);
    }
  }

  lemma RestIgnoresList(w: Worker, requests: seq<Request>, todo: nat, stage: Stage,
                        kept: seq<Request>, rs: seq<Request>, os: seq<Outcome>)
    requires w.phase.Sweeping? && |rs| == |os|
    ensures AfterRest(w.(requests := requests, phase := w.phase.(todo := todo, stage := stage)), kept, rs, os)
            == AfterRest(w, kept, rs, os)
  {
  }

  lemma VisitThenRest(w: Worker, os: seq<Outcome>)
    requires w.phase.Sweeping? && w.phase.todo == |os| <= |w.requests| && os != []
    ensures var (n, v) := (Current(w), AfterVisit(w, os[0]));
            var kept := w.requests[..n] + Stays(w.requests[n], w.phase.readFds, w.phase.writeFds, os[0]);
            AfterSweep(v, os[1..]) == AfterRest(Passed(w, w.requests[n], os[0]), kept, w.requests[n..][1..], os[1..])
  {
    var n, v := Current(w), AfterVisit(w, os[0]);
    var kept := w.requests[..n] + Stays(w.requests[n], w.phase.readFds, w.phase.writeFds, os[0]);
    var p, rs := Passed(w, w.requests[n], os[0]), w.requests[n..][1..];
    VisitSplits(w, os[0]);
    assert v == p.(requests := v.requests, phase := p.phase.(todo := v.phase.todo, stage := AtRead));
    assert AfterSweep(v, os[1..]) == AfterRest(v, kept, rs, os[1..]);
    RestIgnoresList(p, v.requests, v.phase.todo, AtRead, kept, rs, os[1..]);
  }

  /** One visit and the sweep of the rest make the whole sweep. */
  lemma SweepUnfolds(w: Worker, os: seq<Outcome>)
    requires w.phase.Sweeping? && w.phase.todo == |os| <= |w.requests| && os != []
    ensures AfterSweep(AfterVisit(w, os[0]), os[1..]) == AfterSweep(w, os)
  {
    var n := Current(w);
    assert w.requests[n..][0] == w.requests[n];
    VisitThenRest(w, os);
    RestStep(w, w.requests[..n], w.requests[n..], os);
  }

  /** The sweep as it runs: visit the current entry, then the others. */
  function Walk(w: Worker, os: seq<Outcome>): Worker
    requires w.phase.Sweeping? && w.phase.todo == |os| <= |w.requests|
    decreases |os|
  {
    if os == [] then w.(phase := w.phase.(stage := AtRead)) else Walk(AfterVisit(w, os[0]), os[1..])
  }

  /** Entry by entry it computes what Swept, SweptOut and SweptToFetch say of the whole list. */
  lemma {:induction false} WalkSweeps(w: Worker, os: seq<Outcome>)
    requires w.phase.Sweeping? && w.phase.todo == |os| <= |w.requests|
    ensures Walk(w, os) == AfterSweep(w, os)
    decreases |os|
  {
    if os != [] {
      SweepUnfolds(w, os);
      WalkSweeps(AfterVisit(w, os[0]), os[1..]);
    } else {
      assert w.requests[..|w.requests|] == w.requests;
    }
  }

  /** The steps of the sweep from the current entry on. */
  function EventsFrom(w: Worker, os: seq<Outcome>): seq<Event>
    requires w.phase.Sweeping? && w.phase.todo == |os| <= |w.requests|
  {
    SweepEvents(w.requests[|w.requests| - |os|..], w.phase.readFds, os)
  }

  lemma EventsUnfold(w: Worker, os: seq<Outcome>)
    requires w.phase.Sweeping? && w.phase.todo == |os| <= |w.requests| && os != []
    ensures EventsFrom(w, os) ==
            VisitEvents(w.requests[Current(w)], w.phase.readFds, os[0]) + EventsFrom(AfterVisit(w, os[0]), os[1..])
  {
    VisitSplits(w, os[0]);
  }

  /** And so do the steps of a sweep that no callback interrupts. */
  lemma {:induction false} SweepRun(w: Worker, os: seq<Outcome>)
    requires w.phase.Sweeping? && w.phase.stage == AtRead && w.phase.todo == |os| <= |w.requests|
    ensures CanRun(w, EventsFrom(w, os)) && Run(w, EventsFrom(w, os)) == Walk(w, os)
    decreases |os|
  {
    if os != [] {
      var v := AfterVisit(w, os[0]);
      VisitRun(w, os[0]);
      EventsUnfold(w, os);
      SweepRun(v, os[1..]);
      RunConcat(w, VisitEvents(w.requests[Current(w)], w.phase.readFds, os[0]), EventsFrom(v, os[1..]));
    }
  }

  /** Put together: the whole critical section after `pselect`, as a run and as a function of the list. */
  lemma SweepIsRun(w: Worker, os: seq<Outcome>)
    requires w.phase.Sweeping? && w.phase.stage == AtRead && w.phase.todo == |os| <= |w.requests|
    ensures var es := EventsFrom(w, os) + [EndSweep];
            CanRun(w, es) && Run(w, es) == AfterSweep(w, os).(phase := Top)
  {
    WalkSweeps(w, os);
    SweepRun(w, os);
    RunOne(AfterSweep(w, os), EndSweep, []);
    assert [EndSweep] == [EndSweep] + [];
    RunConcat(w, EventsFrom(w, os), [EndSweep]);
  }

  // ---- A sweep between whose steps callbacks run ----

  /** The id that a step visits, if it is the write test of the current entry. */
  function Visit(w: Worker, e: Event): seq<nat>
    requires Enabled(w, e)
  {
    if e.WriteCurrent? then [w.requests[Current(w)].id] else []
  }

  /** The ids of the entries that the write test of the sweep gets to, in the order of the run. */
  function Visits(w: Worker, es: seq<Event>): seq<nat>
    requires CanRun(w, es)
    decreases |es|
  {
    if es == [] then [] else Visit(w, es[0]) + Visits(Step(w, es[0]), es[1..])
  }

  predicate InSweep(w: Worker) {
    w.phase.Sweeping? && w.phase.todo <= |w.requests|
  }

  /** The entries that the sweep has kept so far. */
  function KeptSoFar(w: Worker): seq<nat>
    requires InSweep(w)
  {
    Ids(w.requests)[..|w.requests| - w.phase.todo]
  }

  /** The entries that it has still to visit. */
  function Left(w: Worker): seq<nat>
    requires InSweep(w)
  {
    Ids(w.requests)[|w.requests| - w.phase.todo..]
  }

  lemma SweepEnds(w: Worker)
    requires InSweep(w)
    ensures w.phase.todo == |w.requests| ==> Left(w) == Ids(w.requests) && KeptSoFar(w) == []
    ensures w.phase.todo == 0 ==> Left(w) == [] && KeptSoFar(w) == Ids(w.requests)
  {
  }

  /** One step of a sweep, callbacks included: the next entry is kept or closed, or nothing moves. */
  lemma StepInSweep(w: Worker, e: Event)
    requires InSweep(w) && Enabled(w, e) && !e.EndSweep?
    ensures InSweep(Step(w, e)) && Left(w) == Visit(w, e) + Left(Step(w, e))
    ensures var v := Step(w, e);
            || (KeptSoFar(v) == KeptSoFar(w) + Visit(w, e) && v.closed == w.closed)
            || (KeptSoFar(v) == KeptSoFar(w) && v.closed == w.closed + Visit(w, e))
  {
    if e.WriteCurrent? {
      assert Step(w, e) == WriteEntry(w, e.complete) && Visit(w, e) == [w.requests[Current(w)].id];
      WriteInSweep(w, e.complete);
    } else {
      OtherInSweep(w, e);
      NothingAdded(KeptSoFar(w), Left(w));
    }
  }

  lemma NothingAdded<T>(a: seq<T>, b: seq<T>)
    ensures a + [] == a && [] + b == b
  {
  }

  lemma OtherInSweep(w: Worker, e: Event)
    requires InSweep(w) && Enabled(w, e) && !e.EndSweep? && !e.WriteCurrent?
    ensures var v := Step(w, e);
            InSweep(v) && Left(v) == Left(w) && KeptSoFar(v) == KeptSoFar(w) && v.closed == w.closed
  {
    assert Ids(Step(w, e).requests) == Ids(w.requests);
  }

  lemma WriteInSweep(w: Worker, complete: bool)
    requires HasCurrent(w)
    ensures var (v, id) := (WriteEntry(w, complete), w.requests[Current(w)].id);
            && Left(w) == [id] + Left(v)
            && (|| (KeptSoFar(v) == KeptSoFar(w) + [id] && v.closed == w.closed)
                || (KeptSoFar(v) == KeptSoFar(w) && v.closed == w.closed + [id]))
  {
    var v, i, all := WriteEntry(w, complete), Current(w), Ids(w.requests);
    assert all[i..] == [all[i]] + all[i + 1..] && all[..i + 1] == all[..i] + [all[i]];
    if Ended(Written(w.requests[i], w.phase.writeFds, complete)) {
      assert Ids(v.requests) == all[..i] + all[i + 1..];
    } else {
      assert Ids(v.requests) == all;
    }
  }

  /** `all` is dealt out to `kept` and `closed`, in order. */
  predicate Dealt(all: seq<nat>, kept: seq<nat>, closed: seq<nat>) {
    if all == [] then kept == [] && closed == []
    else
      || (kept != [] && kept[0] == all[0] && Dealt(all[1..], kept[1..], closed))
      || (closed != [] && closed[0] == all[0] && Dealt(all[1..], kept, closed[1..]))
  }

  lemma DealOne(one: seq<nat>, all: seq<nat>, kept: seq<nat>, closed: seq<nat>)
    requires |one| <= 1 && Dealt(all, kept, closed)
    ensures Dealt(one + all, one + kept, closed) && Dealt(one + all, kept, one + closed)
  {
    if one == [] {
      assert one + all == all && one + kept == kept && one + closed == closed;
    } else {
      assert (one + all)[1..] == all && (one + kept)[1..] == kept && (one + closed)[1..] == closed;
    }
  }

  predicate StaysInSweep(es: seq<Event>) {
    forall e | e in es :: !e.EndSweep?
  }

  /** The rest of a sweep visits what is left of the list, once and in order. */
  lemma {:induction false} VisitsWhatIsLeft(w: Worker, es: seq<Event>)
    requires InSweep(w) && CanRun(w, es) && StaysInSweep(es)
    ensures InSweep(Run(w, es)) && Left(w) == Visits(w, es) + Left(Run(w, es))
    decreases |es|
  {
    if es == [] {
      assert [] + Left(w) == Left(w);
    } else {
      var v := Step(w, es[0]);
      assert es[0] in es && forall e :: e in es[1..] ==> e in es;
      StepInSweep(w, es[0]);
      VisitsWhatIsLeft(v, es[1..]);
      Associative(Visit(w, es[0]), Visits(v, es[1..]), Left(Run(w, es)));
    }
  }

  /** What it visits it deals out to the entries that it keeps and to those that it closes. */
  lemma {:induction false} VisitsAreDealt(w: Worker, es: seq<Event>) returns (kept: seq<nat>, closed: seq<nat>)
    requires InSweep(w) && CanRun(w, es) && StaysInSweep(es)
    ensures InSweep(Run(w, es)) && Dealt(Visits(w, es), kept, closed)
    ensures KeptSoFar(Run(w, es)) == KeptSoFar(w) + kept && Run(w, es).closed == w.closed + closed
    decreases |es|
  {
    if es == [] {
      kept, closed := [], [];
      assert KeptSoFar(w) + [] == KeptSoFar(w) && w.closed + [] == w.closed;
    } else {
      var v, id := Step(w, es[0]), Visit(w, es[0]);
      assert es[0] in es && forall e :: e in es[1..] ==> e in es;
      StepInSweep(w, es[0]);
      kept, closed := VisitsAreDealt(v, es[1..]);
      DealOne(id, Visits(v, es[1..]), kept, closed);
      if KeptSoFar(v) == KeptSoFar(w) + id && v.closed == w.closed {
        Associative(KeptSoFar(w), id, kept);
        kept := id + kept;
      } else {
        Associative(w.closed, id, closed);
        closed := id + closed;
      }
    }
  }

  /** The ids of `all` that are not in `gone`, in order. */
  function Outside(all: seq<nat>, gone: seq<nat>): seq<nat> {
    if all == [] then [] else (if all[0] in gone then [] else [all[0]]) + Outside(all[1..], gone)
  }

  lemma {:induction false} OutsideAgrees(all: seq<nat>, gone: seq<nat>, same: seq<nat>)
    requires forall id | id in all :: id in gone <==> id in same
    ensures Outside(all, gone) == Outside(all, same)
  {
    if all != [] {
      assert all[0] in all && forall id :: id in all[1..] ==> id in all;
      OutsideAgrees(all[1..], gone, same);
    }
  }

  lemma {:induction false} DealtMembers(all: seq<nat>, kept: seq<nat>, closed: seq<nat>)
    requires Dealt(all, kept, closed)
    ensures forall id :: id in kept || id in closed ==> id in all
  {
    if all != [] {
      assert forall id :: id in all <==> id == all[0] || id in all[1..];
      if kept != [] && kept[0] == all[0] && Dealt(all[1..], kept[1..], closed) {
        DealtMembers(all[1..], kept[1..], closed);
        assert forall id :: id in kept <==> id == kept[0] || id in kept[1..];
      } else {
        DealtMembers(all[1..], kept, closed[1..]);
        assert forall id :: id in closed <==> id == closed[0] || id in closed[1..];
      }
    }
  }

  lemma {:induction false} DealtSwapped(all: seq<nat>, kept: seq<nat>, closed: seq<nat>)
    requires Dealt(all, kept, closed)
    ensures Dealt(all, closed, kept)
  {
    if all != [] {
      if kept != [] && kept[0] == all[0] && Dealt(all[1..], kept[1..], closed) {
        DealtSwapped(all[1..], kept[1..], closed);
      } else {
        DealtSwapped(all[1..], kept, closed[1..]);
      }
    }
  }

  /** When nothing occurs twice, each part is the whole without the other. */
  lemma {:induction false} DealtParts(all: seq<nat>, kept: seq<nat>, closed: seq<nat>)
    requires Dealt(all, kept, closed) && forall i, j :: 0 <= i < j < |all| ==> all[i] != all[j]
    ensures kept == Outside(all, closed) && closed == Outside(all, kept)
    decreases |all|, 1
  {
    if all != [] {
      var id, rest := all[0], all[1..];
      assert id !in rest;
      if kept != [] && kept[0] == id && Dealt(rest, kept[1..], closed) {
        PartsWithFirst(id, rest, kept[1..], closed);
        assert kept == [id] + kept[1..];
      } else {
        DealtSwapped(rest, kept, closed[1..]);
        PartsWithFirst(id, rest, closed[1..], kept);
        assert closed == [id] + closed[1..];
      }
    }
  }

  lemma PartsWithFirst(id: nat, rest: seq<nat>, a: seq<nat>, b: seq<nat>)
    requires id !in rest && Dealt(rest, a, b) && forall i, j :: 0 <= i < j < |rest| ==> rest[i] != rest[j]
    ensures [id] + a == Outside([id] + rest, b) && b == Outside([id] + rest, [id] + a)
    decreases |rest|, 2
  {
    DealtParts(rest, a, b);
    DealtMembers(rest, a, b);
    OutsideAgrees(rest, [id] + a, a);
    assert ([id] + rest)[1..] == rest;
  }
}
