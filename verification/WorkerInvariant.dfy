/** What every step of the server worker keeps. */
module WorkerInvariant {
  import opened Collections
  import opened WorkerModel

  // ---- Listing each request once ----

  lemma {:induction false} MultisetRemove(s: seq<nat>, i: nat)
    requires i < |s|
    ensures multiset(s[..i] + s[i + 1..]) + multiset{s[i]} == multiset(s)
  {
    assert s == s[..i] + [s[i]] + s[i + 1..];
  }

  lemma AtMostOnce(s: seq<nat>, t: seq<nat>, u: set<nat>)
    requires multiset(s) + multiset(t) == multiset(u)
    ensures Distinct(s)
    ensures forall i :: 0 <= i < |s| ==> s[i] in u && s[i] !in t
    ensures forall j :: 0 <= j < |t| ==> t[j] in u
  {
    forall i, j | 0 <= i < j < |s|
      ensures s[i] != s[j]
    {
      assert s == s[..j] + s[j..];
      assert s[i] == s[..j][i] && s[j] == s[j..][0];
      assert multiset(s)[s[j]] == multiset(s[..j])[s[j]] + multiset(s[j..])[s[j]];
      assert multiset(s)[s[j]] <= multiset(u)[s[j]] <= 1;
    }
    forall i | 0 <= i < |s|
      ensures s[i] in u && s[i] !in t
    {
      assert s[i] in multiset(s);
      assert multiset(u)[s[i]] <= 1;
    }
    forall j | 0 <= j < |t|
      ensures t[j] in u
    {
      assert t[j] in multiset(t);
      assert t[j] in multiset(u);
    }
  }

  // ---- The invariant ----

  /** Every accepted request is either listed or closed, once; open sockets are distinct; none is done. */
  ghost predicate Bookkeeping(w: Worker) {
    && w.currentRequests == |w.requests| <= w.maxRequests
    && multiset(Ids(w.requests)) + multiset(w.closed) == multiset(w.accepted)
    && (forall i, j :: 0 <= i < j < |w.requests| ==> w.requests[i].fd != w.requests[j].fd)
    && forall k :: 0 <= k < |w.requests| ==> w.requests[k].state != Done
  }

  /** The worker sleeps only on an empty list without shutdown, and leaves only on an empty list with it. */
  predicate Wakeups(w: Worker) {
    && (w.phase == Asleep ==> w.requests == [] && !w.shutdown)
    && (w.phase == Exited ==> w.requests == [] && w.shutdown)
  }

  /** A registered socket is in the state it was registered for. */
  predicate RegisteredAt(r: Request, readFds: set<nat>, writeFds: set<nat>) {
    (r.fd in readFds ==> r.state == Read) && (r.fd in writeFds ==> r.state == Write)
  }

  /** The current entry of a sweep between its tests. */
  predicate CurrentAt(r: Request, w: Worker)
    requires w.phase.Sweeping?
  {
    match w.phase.stage
    case AtRead => RegisteredAt(r, w.phase.readFds, w.phase.writeFds)
    case Fetched => r.fd in w.phase.readFds && if r.id in w.fetching then r.state == Read
                                               else r.state == Write || r.state == Error
    case AtWrite => r.fd in w.phase.writeFds ==> r.state == Write
  }

  predicate Registered(w: Worker) {
    match w.phase
    case Selecting(readFds, writeFds) =>
      && readFds !! writeFds && readFds + writeFds <= Fds(w.requests)
      && forall k :: 0 <= k < |w.requests| ==> RegisteredAt(w.requests[k], readFds, writeFds)
    case Sweeping(readFds, writeFds, todo, stage) =>
      && readFds !! writeFds && todo <= |w.requests| && (todo == 0 ==> stage == AtRead)
      && (todo > 0 ==> CurrentAt(w.requests[|w.requests| - todo], w))
      && forall k :: |w.requests| - todo < k < |w.requests| ==> RegisteredAt(w.requests[k], readFds, writeFds)
    case _ => true
  }

  /** The entry for which QueueFile has been called but that is not marked as waiting yet. */
  predicate IsFetched(w: Worker, k: nat) {
    HasCurrent(w) && w.phase.stage == Fetched && k == Current(w)
  }

  predicate FetchedAt(w: Worker, k: nat)
    requires k < |w.requests|
  {
    w.requests[k].id in w.fetching ==> w.requests[k].state == if IsFetched(w, k) then Read else Waiting
  }

  /** Every file read in progress belongs to a listed request, which waits for it. */
  predicate Fetches(w: Worker) {
    && (forall id :: id in w.fetching ==> id in Ids(w.requests))
    && forall k :: 0 <= k < |w.requests| ==> FetchedAt(w, k)
  }

  ghost predicate Inv(w: Worker) {
    Bookkeeping(w) && Wakeups(w) && Registered(w) && Fetches(w)
  }

  lemma InitInv(maxRequests: nat)
    ensures Inv(Init(maxRequests))
  {
  }

  lemma IdsDistinct(w: Worker)
    requires Bookkeeping(w)
    ensures forall i, j :: 0 <= i < j < |w.requests| ==> w.requests[i].id != w.requests[j].id
    ensures forall i :: 0 <= i < |w.requests| ==> w.requests[i].id in w.accepted && w.requests[i].id !in w.closed
  {
    AtMostOnce(Ids(w.requests), w.closed, w.accepted);
    var ids := Ids(w.requests);
    assert forall i :: 0 <= i < |w.requests| ==> w.requests[i].id == ids[i];
  }

  // ---- Preservation ----

  lemma AddKeepsBooks(w: Worker, id: nat, fd: nat)
    requires Inv(w) && Enabled(w, AddRequest(id, fd)) && AddCode(w) == Ok
    ensures Bookkeeping(Add(w, id, fd))
  {
    var v := Add(w, id, fd);
    assert Ids(v.requests) == [id] + Ids(w.requests);
    assert multiset(v.accepted) == multiset(w.accepted) + multiset{id};
    FdIsNew(w, fd);
  }

  lemma FdIsNew(w: Worker, fd: nat)
    requires fd !in Fds(w.requests)
    ensures forall k :: 0 <= k < |w.requests| ==> w.requests[k].fd != fd
  {
    forall k | 0 <= k < |w.requests|
      ensures w.requests[k].fd != fd
    {
      assert w.requests[k] in w.requests;
    }
  }

  lemma AddKeepsRegistered(w: Worker, id: nat, fd: nat)
    requires Inv(w) && Enabled(w, AddRequest(id, fd)) && AddCode(w) == Ok
    ensures Registered(Add(w, id, fd))
  {
    FdIsNew(w, fd);
    assert Fds(Add(w, id, fd).requests) == {fd} + Fds(w.requests);
  }

  lemma AddKeepsFetches(w: Worker, id: nat, fd: nat)
    requires Inv(w) && Enabled(w, AddRequest(id, fd)) && AddCode(w) == Ok
    ensures Fetches(Add(w, id, fd))
  {
    var v := Add(w, id, fd);
    IdsDistinct(w);
    forall x | x in w.fetching
      ensures x in Ids(v.requests) && x in w.accepted
    {
      var k :| 0 <= k < |w.requests| && Ids(w.requests)[k] == x;
      assert Ids(v.requests)[k + 1] == x && w.requests[k].id in w.accepted;
    }
    forall k | 0 <= k < |v.requests|
      ensures FetchedAt(v, k)
    {
      if k > 0 {
        assert FetchedAt(w, k - 1);
      }
    }
  }

  lemma AddInv(w: Worker, id: nat, fd: nat)
    requires Inv(w) && Enabled(w, AddRequest(id, fd))
    ensures Inv(Add(w, id, fd))
  {
    if AddCode(w) == Ok {
      AddKeepsBooks(w, id, fd);
      AddKeepsRegistered(w, id, fd);
      AddKeepsFetches(w, id, fd);
    }
  }

  lemma RegisterKeepsFds(w: Worker)
    ensures Ids(Register(w).requests) == Ids(w.requests)
    ensures Register(w).phase.readFds + Register(w).phase.writeFds <= Fds(Register(w).requests)
  {
    var v := Register(w);
    assert Ids(v.requests) == Ids(w.requests);
    forall x | x in v.phase.readFds + v.phase.writeFds
      ensures x in Fds(v.requests)
    {
      var i :| 0 <= i < |w.requests| && w.requests[i].fd == x;
      assert v.requests[i] in v.requests;
    }
  }

  /** With distinct sockets, a socket that is collected for a state belongs to a request in that state. */
  lemma RegisterKeepsRegistered(w: Worker)
    requires Bookkeeping(w)
    ensures Registered(Register(w))
  {
    var v := Register(w);
    RegisterKeepsFds(w);
    forall r, q | r in w.requests && q in w.requests && r.fd == q.fd
      ensures r == q
    {
    }
    forall k | 0 <= k < |v.requests|
      ensures RegisteredAt(v.requests[k], v.phase.readFds, v.phase.writeFds)
    {
      assert w.requests[k] in w.requests;
    }
  }

  lemma RegisterKeepsFetches(w: Worker)
    requires Fetches(w) && !w.phase.Sweeping?
    ensures Fetches(Register(w))
  {
    var v := Register(w);
    RegisterKeepsFds(w);
    forall k | 0 <= k < |v.requests|
      ensures FetchedAt(v, k)
    {
      assert FetchedAt(w, k);
    }
  }

  lemma RegisterInv(w: Worker)
    requires Inv(w) && !w.phase.Sweeping?
    ensures Inv(Register(w))
  {
    RegisterKeepsFds(w);
    RegisterKeepsRegistered(w);
    RegisterKeepsFetches(w);
  }

  lemma ReadEntryInv(w: Worker, reading: Reading)
    requires Inv(w) && Enabled(w, ReadCurrent(reading))
    ensures Inv(ReadEntry(w, reading))
  {
    var v, i := ReadEntry(w, reading), Current(w);
    assert Ids(v.requests) == Ids(w.requests);
    assert Ids(w.requests)[i] == w.requests[i].id;
    IdsDistinct(w);
    assert FetchedAt(w, i);
    assert Registered(v);
    forall k | 0 <= k < |v.requests|
      ensures FetchedAt(v, k)
    {
      assert FetchedAt(w, k);
    }
  }

  lemma MarkInv(w: Worker)
    requires Inv(w) && Enabled(w, MarkWaiting)
    ensures Inv(Mark(w))
  {
    var v := Mark(w);
    assert Ids(v.requests) == Ids(w.requests);
    forall k | 0 <= k < |v.requests|
      ensures FetchedAt(v, k)
    {
      assert FetchedAt(w, k);
    }
  }

  ghost predicate Removes(w: Worker, complete: bool) {
    && Inv(w) && Enabled(w, WriteCurrent(complete))
    && Ended(Written(w.requests[Current(w)], w.phase.writeFds, complete))
  }

  lemma RemovedAt(w: Worker, complete: bool)
    requires Removes(w, complete)
    ensures var v, i := WriteEntry(w, complete), Current(w);
            |v.requests| == |w.requests| - 1 &&
            forall k :: 0 <= k < |v.requests| ==> v.requests[k] == w.requests[if k < i then k else k + 1]
  {
  }

  lemma RemoveKeepsBooks(w: Worker, complete: bool)
    requires Removes(w, complete)
    ensures Bookkeeping(WriteEntry(w, complete))
  {
    var v, i := WriteEntry(w, complete), Current(w);
    RemovedAt(w, complete);
    MultisetRemove(Ids(w.requests), i);
    assert Ids(v.requests) == Ids(w.requests)[..i] + Ids(w.requests)[i + 1..];
    assert multiset(v.closed) == multiset(w.closed) + multiset{w.requests[i].id};
  }

  lemma RemoveKeepsFetches(w: Worker, complete: bool)
    requires Removes(w, complete)
    ensures Fetches(WriteEntry(w, complete))
  {
    var v, i := WriteEntry(w, complete), Current(w);
    RemovedAt(w, complete);
    assert FetchedAt(w, i);
    forall x | x in w.fetching
      ensures x in Ids(v.requests)
    {
      var k :| 0 <= k < |w.requests| && Ids(w.requests)[k] == x;
      assert Ids(v.requests)[if k < i then k else k - 1] == x;
    }
    forall k | 0 <= k < |v.requests|
      ensures FetchedAt(v, k)
    {
      assert FetchedAt(w, if k < i then k else k + 1);
    }
  }

  lemma RemoveInv(w: Worker, complete: bool)
    requires Removes(w, complete)
    ensures Inv(WriteEntry(w, complete))
  {
    RemovedAt(w, complete);
    RemoveKeepsBooks(w, complete);
    RemoveKeepsFetches(w, complete);
  }

  lemma KeepInv(w: Worker, complete: bool)
    requires Inv(w) && Enabled(w, WriteCurrent(complete))
    requires !Ended(Written(w.requests[Current(w)], w.phase.writeFds, complete))
    ensures Inv(WriteEntry(w, complete))
  {
    var v := WriteEntry(w, complete);
    assert Ids(v.requests) == Ids(w.requests);
    forall k | 0 <= k < |v.requests|
      ensures FetchedAt(v, k)
    {
      assert FetchedAt(w, k);
    }
  }

  /** What a callback leaves of each entry: all but the state of the one that waited for it. */
  lemma CalledBack(w: Worker, id: nat, ok: bool)
    requires Inv(w) && id in w.fetching
    ensures var v := CallBack(w, id, ok);
            && Ids(v.requests) == Ids(w.requests) && Fds(v.requests) == Fds(w.requests)
            && forall k :: 0 <= k < |w.requests| ==>
                 && v.requests[k].fd == w.requests[k].fd
                 && (v.requests[k] == w.requests[k] || w.requests[k].state == if IsFetched(w, k) then Read else Waiting)
  {
    var v := CallBack(w, id, ok);
    assert Ids(v.requests) == Ids(w.requests);
    forall k | 0 <= k < |w.requests|
      ensures v.requests[k] == w.requests[k] || w.requests[k].state == if IsFetched(w, k) then Read else Waiting
    {
      assert FetchedAt(w, k);
    }
    forall x | x in Fds(w.requests)
      ensures x in Fds(v.requests)
    {
      var k :| 0 <= k < |w.requests| && w.requests[k].fd == x;
      assert v.requests[k] in v.requests;
    }
  }

  lemma CallBackKeepsFetches(w: Worker, id: nat, ok: bool)
    requires Inv(w) && id in w.fetching
    ensures Fetches(CallBack(w, id, ok))
  {
    var v := CallBack(w, id, ok);
    assert Ids(v.requests) == Ids(w.requests);
    forall k | 0 <= k < |v.requests|
      ensures FetchedAt(v, k)
    {
      assert FetchedAt(w, k);
    }
  }

  lemma CallBackInv(w: Worker, id: nat, ok: bool)
    requires Inv(w) && id in w.fetching
    ensures Inv(CallBack(w, id, ok))
  {
    CalledBack(w, id, ok);
    CallBackKeepsFetches(w, id, ok);
    assert Registered(CallBack(w, id, ok));
  }

  /** Steps that touch no request and enter or leave no QueueFile call. */
  lemma SameFetches(w: Worker, v: Worker)
    requires Fetches(w) && v.requests == w.requests && v.fetching == w.fetching
    requires forall k :: 0 <= k < |w.requests| ==> !IsFetched(w, k) && !IsFetched(v, k)
    ensures Fetches(v)
  {
    forall k | 0 <= k < |v.requests|
      ensures FetchedAt(v, k)
    {
      assert FetchedAt(w, k);
    }
  }

  /** Every step keeps the invariant. */
  lemma InvStep(w: Worker, e: Event)
    requires Inv(w) && Enabled(w, e)
    ensures Inv(Step(w, e))
  {
    match e
    case AddRequest(id, fd) => AddInv(w, id, fd);
    case LoopTop =>
      if w.currentRequests != 0 {
        RegisterInv(w);
      } else {
        SameFetches(w, Step(w, e));
      }
    case Resume =>
      if w.currentRequests != 0 || !w.shutdown {
        RegisterInv(w);
      } else {
        SameFetches(w, Step(w, e));
      }
    case ReadCurrent(reading) => ReadEntryInv(w, reading);
    case MarkWaiting => MarkInv(w);
    case WriteCurrent(complete) =>
      if Removes(w, complete) {
        RemoveInv(w, complete);
      } else {
        KeepInv(w, complete);
      }
    case Callback(id, ok) => CallBackInv(w, id, ok);
    case _ => SameFetches(w, Step(w, e));
  }

  lemma {:induction false} InvRun(w: Worker, es: seq<Event>)
    requires Inv(w) && CanRun(w, es)
    ensures Inv(Run(w, es))
    decreases |es|
  {
    if es != [] {
      InvStep(w, es[0]);
      InvRun(Step(w, es[0]), es[1..]);
    }
  }
}
