/**
 A whole GET request on the cache, from its lookup to the end of its response (src/server/worker.c), with other threads
 at work between any two of its calls and afterwards.
 */
module Requests {
  import opened CBytes
  import opened Collections
  import opened Association
  import opened EvictionPlan
  import opened CacheModel
  import opened CacheRuns
  import opened Cache
  import opened CacheThreads
  import opened Serving
  import opened SendResponse
  import ResponseWriter
  import Response

  /** The handles of a request after the end of its file read, if it waited for one. */
  function AfterRead(mine: multiset<CacheBuffer>, next: Next, body: CacheBuffer?, read: FileRead):
    multiset<CacheBuffer>
  {
    With(mine, if next == FillFirst && read.Failed? then FillFirst else Answer, body)
  }

  /** The handles after the end of its response: after a failed read the write handle is left. */
  function Left(mine: multiset<CacheBuffer>, next: Next, body: CacheBuffer?, read: FileRead): multiset<CacheBuffer> {
    if body != null && (next == Stuck || (next == FillFirst && read.Failed?)) then mine + multiset{body} else mine
  }

  /** The calls at the end of the file read. */
  function ReadCalls(next: Next, body: CacheBuffer, read: FileRead): seq<Event> {
    if next != FillFirst then []
    else match read
      case Refused => [Give(Mine, body)]
      case Failed => []
      case Brought(data) => [Fill(Mine, body, data)]
  }

  /**
   `_ReadFileCallback`, or a refusal by `QueueFile`, after which there is no callback. The write handle is given back,
   except after a failed read.
   */
  method FinishFill(cache: CacheManager, body: CacheBuffer, read: FileRead, theirs: seq<CacheBuffer>,
                    ghost mine: multiset<CacheBuffer>, ghost t: Trail)
    returns (ghost end: Trail)
    requires Reaches(cache, t, mine + multiset{body} + multiset{body}, theirs)
    modifies cache`handles, body`references, body`data
    ensures Reaches(cache, end, AfterRead(mine, FillFirst, body, read), theirs)
    ensures end.start == t.start && end.ops == t.ops
    ensures My(end.events) == My(t.events) + ReadCalls(FillFirst, body, read)
    ensures body.data == if read.Brought? then read.data else old(body.data)
  {
    match read {
      case Refused =>
        end := MyRelease(cache, body, theirs, mine + multiset{body}, t);
      case Failed =>
        end := t;
        assert My(t.events) + [] == My(t.events);
      case Brought(data) =>
        end := MyFill(cache, body, data, theirs, mine + multiset{body}, t);
    }
  }

  method FinishFillIf(cache: CacheManager, next: Next, body: CacheBuffer, read: FileRead, theirs: seq<CacheBuffer>,
                      ghost mine: multiset<CacheBuffer>, ghost t: Trail)
    returns (ghost end: Trail)
    requires Reaches(cache, t, With(mine, next, body), theirs)
    modifies cache`handles, body`references, body`data
    ensures Reaches(cache, end, AfterRead(mine, next, body, read), theirs) && end.start == t.start && end.ops == t.ops
    ensures My(end.events) == My(t.events) + ReadCalls(next, body, read)
    ensures body.data == if next == FillFirst && read.Brought? then read.data else old(body.data)
  {
    end := t;
    if next == FillFirst {
      end := FinishFill(cache, body, read, theirs, mine, t);
    }
  }

  /** The request waits for its file, or for its socket, and others are at work. */
  method WaitFor(cache: CacheManager, body: CacheBuffer, ops: seq<Operation>, theirs: seq<CacheBuffer>,
                 ghost held: multiset<CacheBuffer>, ghost t: Trail)
    returns (left: seq<CacheBuffer>, ghost end: Trail, ghost seen: seq<Event>, ghost mid: World)
    requires Reaches(cache, t, held, theirs) && body in held
    modifies cache`usedMemory, cache`entryCount, cache`order, cache`history, cache`handles, cache`locked, cache.table
    modifies Elems(cache.order)`references, Elems(cache.order)`lastReference, Elems(cache.order)`data
    ensures Reaches(cache, end, held, left) && end.start == t.start && end.ops == t.ops + ops
    ensures My(end.events) == My(t.events)
    ensures Goes(cache.Bounds(), ops, old(Now(cache, held, theirs)), seen, mid) && My(seen) == []
    ensures body.data == Holds(body, old(body.data), seen)
    ensures forall b | b in cache.order :: b in old(cache.order) || fresh(b)
    ensures body in cache.order && body in old(cache.order)
  {
    assert body in cache.handles;
    left, end, seen := LetOthers(cache, ops, theirs, held, t);
    assert body in cache.handles;
    mid := Now(cache, held, left);
  }

  /** What goes out: nothing after a refused read, 403 after a failed one, and otherwise the body as it is now. */
  method Send(next: Next, read: FileRead, meta: Meta, fileSize: nat, data: seq<byte>,
              results: seq<ResponseWriter.SocketWrite>)
    returns (r: ResponseWriter.RawResponse?, calls: nat)
    requires MetaOk(meta)
    ensures r == null <==> next == FillFirst && read.Refused?
    ensures r != null ==> fresh(r) && Written(r, results, calls)
    ensures r != null ==> if next == FillFirst && read.Failed? then Refuses(r) else Carries(r, meta, fileSize, data)
    ensures r != null && !(next == FillFirst && read.Failed?) && r.wire == r.Whole() ==>
              (Response.LengthHolds(r.wire) <==> fileSize == |data|)
  {
    r, calls := null, 0;
    if next == FillFirst && read.Failed? {
      r, calls := SendForbidden(results);
    } else if !(next == FillFirst && read.Refused?) {
      r, calls := SendOk(meta, fileSize, data, results);
    }
  }

  /** The response has gone out, while others were at work, and is destroyed with its handle. */
  method Destroy(cache: CacheManager, next: Next, body: CacheBuffer, read: FileRead, theirs: seq<CacheBuffer>,
                 ghost mine: multiset<CacheBuffer>, ghost t: Trail)
    returns (ghost end: Trail)
    requires Reaches(cache, t, AfterRead(mine, next, body, read), theirs) && (next == Answer || next == FillFirst)
    modifies cache`handles, body`references
    ensures Reaches(cache, end, Left(mine, next, body, read), theirs) && end.start == t.start && end.ops == t.ops
    ensures My(end.events) == My(t.events) + [Give(Mine, body)]
  {
    end := MyRelease(cache, body, theirs, Left(mine, next, body, read), t);
  }

  /** The request waits for its file read, if there is one, and the read ends. */
  method FillPhase(cache: CacheManager, next: Next, body: CacheBuffer, read: FileRead, ops: seq<Operation>,
                   theirs: seq<CacheBuffer>, ghost mine: multiset<CacheBuffer>, ghost t: Trail)
    returns (left: seq<CacheBuffer>, ghost end: Trail, ghost seen: seq<Event>, ghost mid: World)
    requires Reaches(cache, t, With(mine, next, body), theirs)
    modifies cache`usedMemory, cache`entryCount, cache`order, cache`history, cache`handles, cache`locked, cache.table
    modifies Elems(cache.order)`references, Elems(cache.order)`lastReference, Elems(cache.order)`data
    ensures Reaches(cache, end, AfterRead(mine, next, body, read), left)
    ensures end.start == t.start && end.ops == t.ops + ops
    ensures My(end.events) == My(t.events) + ReadCalls(next, body, read)
    ensures Goes(cache.Bounds(), ops, old(Now(cache, With(mine, next, body), theirs)), seen, mid) && My(seen) == []
    ensures body.data == if next == FillFirst && read.Brought? then read.data else Holds(body, old(body.data), seen)
    ensures forall b | b in cache.order :: b in old(cache.order) || fresh(b)
  {
    left, end, seen, mid := WaitFor(cache, body, ops, theirs, With(mine, next, body), t);
    end := FinishFillIf(cache, next, body, read, left, mine, end);
  }

  /** The time in which the response goes out, and its end. */
  method SendPhase(cache: CacheManager, next: Next, body: CacheBuffer, read: FileRead, ops: seq<Operation>,
                   theirs: seq<CacheBuffer>, ghost mine: multiset<CacheBuffer>, ghost t: Trail)
    returns (left: seq<CacheBuffer>, ghost end: Trail)
    requires Reaches(cache, t, AfterRead(mine, next, body, read), theirs) && (next == Answer || next == FillFirst)
    modifies cache`usedMemory, cache`entryCount, cache`order, cache`history, cache`handles, cache`locked, cache.table
    modifies Elems(cache.order)`references, Elems(cache.order)`lastReference, Elems(cache.order)`data
    ensures Reaches(cache, end, Left(mine, next, body, read), left)
    ensures end.start == t.start && end.ops == t.ops + ops
    ensures My(end.events) == My(t.events) + [Give(Mine, body)]
    ensures forall b | b in cache.order :: b in old(cache.order) || fresh(b)
  {
    ghost var seen, mid;
    left, end, seen, mid := WaitFor(cache, body, ops, theirs, AfterRead(mine, next, body, read), t);
    end := Destroy(cache, next, body, read, left, mine, end);
  }

  /** What a response is about: what becomes of its file read, what is announced, and how the socket takes it. */
  datatype Reply = Reply(read: FileRead, meta: Meta, fileSize: nat, results: seq<ResponseWriter.SocketWrite>)

  /** The response that goes out when the buffer holds `data`. */
  ghost predicate Replies(next: Next, reply: Reply, data: seq<byte>, r: ResponseWriter.RawResponse?, calls: nat)
    reads r
  {
    var failed := next == FillFirst && reply.read.Failed?;
    && (r == null <==> next == FillFirst && reply.read.Refused?)
    && (r != null ==> Written(r, reply.results, calls))
    && (r != null ==> if failed then Refuses(r) else Carries(r, reply.meta, reply.fileSize, data))
    && (r != null && !failed && r.wire == r.Whole() ==> (Response.LengthHolds(r.wire) <==> reply.fileSize == |data|))
  }

  method SendReply(next: Next, reply: Reply, data: seq<byte>) returns (r: ResponseWriter.RawResponse?, calls: nat)
    requires MetaOk(reply.meta)
    ensures Replies(next, reply, data, r, calls) && (r != null ==> fresh(r))
  {
    r, calls := Send(next, reply.read, reply.meta, reply.fileSize, data, reply.results);
  }

  method ReplyPhase(cache: CacheManager, next: Next, body: CacheBuffer, reply: Reply, ops: seq<Operation>,
                    theirs: seq<CacheBuffer>, ghost mine: multiset<CacheBuffer>, ghost t: Trail)
    returns (r: ResponseWriter.RawResponse?, calls: nat, data: seq<byte>, left: seq<CacheBuffer>, ghost end: Trail)
    requires Reaches(cache, t, AfterRead(mine, next, body, reply.read), theirs)
    requires (next == Answer || next == FillFirst) && MetaOk(reply.meta)
    modifies cache`usedMemory, cache`entryCount, cache`order, cache`history, cache`handles, cache`locked, cache.table
    modifies Elems(cache.order)`references, Elems(cache.order)`lastReference, Elems(cache.order)`data
    ensures Reaches(cache, end, Left(mine, next, body, reply.read), left)
    ensures end.start == t.start && end.ops == t.ops + ops
    ensures My(end.events) == My(t.events) + [Give(Mine, body)]
    ensures data == old(body.data) && Replies(next, reply, data, r, calls)
    ensures forall b | b in cache.order :: b in old(cache.order) || fresh(b)
  {
    data := body.data;
    left, end := SendPhase(cache, next, body, reply.read, ops, theirs, mine, t);
    r, calls := SendReply(next, reply, data);
  }

  /**
   From the handles of a request to their return: the end of the file read if there is one, and that of the
   response, with other threads at work before and between them. `data` is what the buffer holds when the response
   is sent: what the read brought, or what the fills that the request has seen have left.
   */
  method FinishRequest(cache: CacheManager, next: Next, body: CacheBuffer, reply: Reply, meanwhile: seq<Operation>,
                       sending: seq<Operation>, theirs: seq<CacheBuffer>, ghost mine: multiset<CacheBuffer>,
                       ghost t: Trail)
    returns (r: ResponseWriter.RawResponse?, calls: nat, data: seq<byte>, left: seq<CacheBuffer>, ghost end: Trail,
             ghost seen: seq<Event>, ghost mid: World)
    requires Reaches(cache, t, With(mine, next, body), theirs) && (next == Answer || next == FillFirst)
    requires MetaOk(reply.meta)
    modifies cache`usedMemory, cache`entryCount, cache`order, cache`history, cache`handles, cache`locked, cache.table
    modifies Elems(cache.order)`references, Elems(cache.order)`lastReference, Elems(cache.order)`data
    ensures Reaches(cache, end, Left(mine, next, body, reply.read), left)
    ensures end.start == t.start && end.ops == t.ops + meanwhile + sending
    ensures My(end.events) == My(t.events) + ReadCalls(next, body, reply.read) + [Give(Mine, body)]
    ensures Goes(cache.Bounds(), meanwhile, old(Now(cache, With(mine, next, body), theirs)), seen, mid)
    ensures My(seen) == []
    ensures data == if next == FillFirst && reply.read.Brought? then reply.read.data
                    else Holds(body, old(body.data), seen)
    ensures Replies(next, reply, data, r, calls)
    ensures forall b | b in cache.order :: b in old(cache.order) || fresh(b)
  {
    left, end, seen, mid := FillPhase(cache, next, body, reply.read, meanwhile, theirs, mine, t);
    r, calls, data, left, end := ReplyPhase(cache, next, body, reply, sending, left, mine, end);
  }

  // ---- The whole request ----

  /** The calls of a request that knows what to do next, until its end. */
  function FinishCalls(my: seq<Event>, next: Next, body: CacheBuffer?, read: FileRead): seq<Event> {
    if body == null || next == Stuck then my else my + ReadCalls(next, body, read) + [Give(Mine, body)]
  }

  method FinishRequestIf(cache: CacheManager, next: Next, body: CacheBuffer?, reply: Reply, meanwhile: seq<Operation>,
                         sending: seq<Operation>, theirs: seq<CacheBuffer>, ghost mine: multiset<CacheBuffer>,
                         ghost t: Trail)
    returns (r: ResponseWriter.RawResponse?, calls: nat, data: seq<byte>, left: seq<CacheBuffer>, ghost end: Trail,
             ghost seen: seq<Event>, ghost mid: World)
    requires Reaches(cache, t, With(mine, next, body), theirs) && MetaOk(reply.meta) && (body != null ==> next != Fail)
    modifies cache`usedMemory, cache`entryCount, cache`order, cache`history, cache`handles, cache`locked, cache.table
    modifies Elems(cache.order)`references, Elems(cache.order)`lastReference, Elems(cache.order)`data
    ensures Reaches(cache, end, Left(mine, next, body, reply.read), left) && end.start == t.start
    ensures end.ops == if body == null || next == Stuck then t.ops else t.ops + meanwhile + sending
    ensures My(end.events) == FinishCalls(My(t.events), next, body, reply.read)
    ensures body != null && next != Stuck ==>
              && Goes(cache.Bounds(), meanwhile, old(Now(cache, With(mine, next, body), theirs)), seen, mid)
              && My(seen) == []
              && data == (if next == FillFirst && reply.read.Brought? then reply.read.data
                          else Holds(body, old(body.data), seen))
    ensures (body == null || next == Stuck) && old(cache.locked) ==> cache.locked
    ensures if body == null || next == Stuck then r == null else Replies(next, reply, data, r, calls)
    ensures forall b | b in cache.order :: b in old(cache.order) || fresh(b)
  {
    r, calls, data, left, end, seen, mid := null, 0, [], theirs, t, [], Now(cache, mine, theirs);
    if body != null && next != Stuck {
      r, calls, data, left, end, seen, mid :=
        FinishRequest(cache, next, body, reply, meanwhile, sending, theirs, mine, t);
    }
  }

  /** The same, and what others do when the request is over. */
  method FinishAndLater(cache: CacheManager, next: Next, body: CacheBuffer?, reply: Reply, s: Schedule,
                        theirs: seq<CacheBuffer>, ghost mine: multiset<CacheBuffer>, ghost t: Trail)
    returns (r: ResponseWriter.RawResponse?, calls: nat, data: seq<byte>, left: seq<CacheBuffer>, ghost end: Trail,
             ghost seen: seq<Event>, ghost mid: World)
    requires Reaches(cache, t, With(mine, next, body), theirs) && MetaOk(reply.meta) && (body != null ==> next != Fail)
    modifies cache`usedMemory, cache`entryCount, cache`order, cache`history, cache`handles, cache`locked, cache.table
    modifies Elems(cache.order)`references, Elems(cache.order)`lastReference, Elems(cache.order)`data
    ensures Reaches(cache, end, Left(mine, next, body, reply.read), left) && end.start == t.start
    ensures end.ops == (if body == null || next == Stuck then t.ops else t.ops + s.meanwhile + s.sending) + s.later
    ensures My(end.events) == FinishCalls(My(t.events), next, body, reply.read)
    ensures body != null && next != Stuck ==>
              && Goes(cache.Bounds(), s.meanwhile, old(Now(cache, With(mine, next, body), theirs)), seen, mid)
              && My(seen) == []
              && data == (if next == FillFirst && reply.read.Brought? then reply.read.data
                          else Holds(body, old(body.data), seen))
    ensures (body == null || next == Stuck) && old(cache.locked) ==> cache.locked
    ensures if body == null || next == Stuck then r == null else Replies(next, reply, data, r, calls)
    ensures forall b | b in cache.order :: b in old(cache.order) || fresh(b)
  {
    r, calls, data, left, end, seen, mid :=
      FinishRequestIf(cache, next, body, reply, s.meanwhile, s.sending, theirs, mine, t);
    left, end := Pause(cache, s.later, left, Left(mine, next, body, reply.read), end);
  }

  /** What other threads do during a request, and after it. */
  datatype Schedule = Schedule(lookup: Others, meanwhile: seq<Operation>, sending: seq<Operation>,
                               later: seq<Operation>)

  /** The operations of others that happen, as far as the request gets, and afterwards. */
  function OpsOfOthers(s: Schedule, first: Next, made: Event, next: Next, body: CacheBuffer?): seq<Operation>
    requires made.Wait? || made.Make?
  {
    var ops := if first == Fail then MissOps([], s.lookup, made, next, body) else [];
    (if body == null || next == Stuck then ops else ops + s.meanwhile + s.sending) + s.later
  }

  /** The calls of a whole request. */
  function RequestCalls(path: CString, first: Next, made: Event, next: Next, body: CacheBuffer?, read: FileRead):
    seq<Event>
    requires made.Wait? || made.Make?
  {
    FinishCalls(FileCalls([], path, first, made, next, body), next, body, read)
  }

  /** From the lookup to the end of the response. */
  method ServeAndFinish(cache: CacheManager, path: CString, now: int, stamp: int, reply: Reply, s: Schedule,
                        theirs: seq<CacheBuffer>, ghost mine: multiset<CacheBuffer>, ghost t: Trail)
    returns (first: Next, next: Next, body: CacheBuffer?, status: Status, r: ResponseWriter.RawResponse?, calls: nat,
             data: seq<byte>, left: seq<CacheBuffer>, ghost made: Event, ghost end: Trail, ghost seen: seq<Event>,
             ghost from: World, ghost mid: World)
    requires Reaches(cache, t, mine, theirs) && t.ops == [] && t.events == [] && MetaOk(reply.meta)
    modifies cache`usedMemory, cache`entryCount, cache`order, cache`history, cache`handles, cache`locked, cache.table
    modifies Elems(cache.order)`references, Elems(cache.order)`lastReference, Elems(cache.order)`data
    ensures Reaches(cache, end, Left(mine, next, body, reply.read), left) && end.start == t.start
    ensures first == if old(cache.locked) then Stuck else if old(Present(cache.order, path)) then Answer else Fail
    ensures made == Wait || (first == Fail && MadeFor(made, path, reply.fileSize, s.lookup.gives))
    ensures end.ops == OpsOfOthers(s, first, made, next, body)
    ensures My(end.events) == RequestCalls(path, first, made, next, body, reply.read)
    ensures first != Fail ==> next == first
    ensures first == Answer ==> body == old(First(cache.order, path))
    ensures if body == null then next == Stuck || next == Fail else next != Fail && body.key == path
    ensures body != null && next != Stuck ==>
              && Goes(cache.Bounds(), s.meanwhile, from, seen, mid) && My(seen) == []
              && Replies(next, reply, data, r, calls)
              && (next == FillFirst && reply.read.Brought? ==> data == reply.read.data)
    ensures first == Answer ==>
              && from == World(old(cache.order), mine + multiset{body}, Bag(theirs), false)
              && data == Holds(body, old(First(cache.order, path).data), seen)
    ensures first == Fail && (made.Wait? || made.created == null) ==> body == null
    ensures body == null || next == Stuck ==> r == null
    ensures next == Stuck || (next == Fail && made.Make? && made.created != null) ==> cache.locked
    ensures forall b | b in cache.order :: b in old(cache.order) || fresh(b)
    ensures first == Fail && Alone(s.lookup) ==>
              && made.Make? && CreatedRight(status, made.created,
                                            old(Verdict(cache.Bounds(), cache.order, cache.handles, reply.fileSize)),
                                            old(Unshadowed(cache.order, cache.handles)), made.created == null)
    ensures first == Fail && Alone(s.lookup) && status == Ok ==>
              && body == made.created && body != null && fresh(body)
              && next == if reply.fileSize == 0 then Answer else FillFirst
  {
    first, next, body, status, left, made, end :=
      ServeFile(cache, path, reply.fileSize, now, stamp, s.lookup, theirs, mine, t);
    from := Now(cache, With(mine, next, body), left);
    r, calls, data, left, end, seen, mid := FinishAndLater(cache, next, body, reply, s, left, mine, end);
  }

  /** The handle that a request never gives back. */
  function LeftBehind(next: Next, body: CacheBuffer?, read: FileRead): multiset<CacheBuffer> {
    Left(multiset{}, next, body, read)
  }

  /** Of all its calls only one is a creation. */
  lemma OneCreation(path: CString, first: Next, made: Event, next: Next, body: CacheBuffer?, read: FileRead)
    requires made.Wait? || made.Make?
    ensures forall e | e in RequestCalls(path, first, made, next, body, read) && e.Make? :: e == made
  {
    HoldCreatesNone([Look(Mine, path, false), made], path, next, body);
    assert [] + [Look(Mine, path, false)] + [made] == [Look(Mine, path, false), made];
    var calls := FileCalls([], path, first, made, next, body);
    assert forall e | e in calls && e.Make? :: e == made;
    if body != null {
      assert forall e | e in ReadCalls(next, body, read) :: !e.Make?;
    }
  }

  lemma HoldCreatesNone(my: seq<Event>, path: CString, next: Next, body: CacheBuffer?)
    ensures forall e | e in HoldCalls(my, path, next, body) && e.Make? :: e in my
  {
  }

  lemma AloneBalances(l: Limits, w: World, events: seq<Event>, end: World, path: CString, size: nat, first: Next,
                      made: Event, next: Next, body: CacheBuffer?, read: FileRead)
    requires Goes(l, [], w, events, end) && (made == Wait || MadeFor(made, path, size, []))
    requires My(events) == RequestCalls(path, first, made, next, body, read)
    ensures end.theirs == w.theirs
  {
    OnlyMine(l, w, events, end);
    OneCreation(path, first, made, next, body, read);
    AloneKeepsTheirs(l, w, events, end);
  }

  lemma {:induction false} OnlyMine(l: Limits, w: World, events: seq<Event>, end: World)
    requires Goes(l, [], w, events, end)
    ensures My(events) == events
    decreases |events|
  {
    if events != [] {
      assert events == [events[0]] + events[1..];
      OnlyMine(l, Apply(l, w, events[0]), events[1..], end);
    }
  }

  /**
   One GET request, from its lookup to the end of its response and beyond, with any operations of other threads between
   its calls and afterwards. The events are a run of the model that leads to the present state; the request's own are
   the calls listed, each answered by the model, and those of the others are what comes of their operations. When it
   is over, the request has no handle any more, except the write handle of a failed read, or of a request stuck
   between its two lookups: nobody can give that one back, and its buffer stays in the table whatever happens later.
   */
  method ServeRequest(cache: CacheManager, path: CString, now: int, stamp: int, reply: Reply, s: Schedule,
                      theirs: seq<CacheBuffer>)
    returns (first: Next, next: Next, body: CacheBuffer?, status: Status, r: ResponseWriter.RawResponse?, calls: nat,
             data: seq<byte>, left: seq<CacheBuffer>, ghost made: Event, ghost events: seq<Event>,
             ghost seen: seq<Event>, ghost from: World, ghost mid: World)
    requires Dealt(cache, multiset{}, theirs) && MetaOk(reply.meta)
    modifies cache`usedMemory, cache`entryCount, cache`order, cache`history, cache`handles, cache`locked, cache.table
    modifies Elems(cache.order)`references, Elems(cache.order)`lastReference, Elems(cache.order)`data
    ensures Dealt(cache, LeftBehind(next, body, reply.read), left)
    ensures forall b | b in cache.order :: b in old(cache.order) || fresh(b)
    ensures made == Wait || (first == Fail && MadeFor(made, path, reply.fileSize, s.lookup.gives))
    ensures Goes(cache.Bounds(), OpsOfOthers(s, first, made, next, body),
                 old(Now(cache, multiset{}, theirs)), events,
                 Now(cache, LeftBehind(next, body, reply.read), left))
    ensures My(events) == RequestCalls(path, first, made, next, body, reply.read)
    ensures forall b | b in LeftBehind(next, body, reply.read) :: b in cache.order && b.references > 0
    ensures OpsOfOthers(s, first, made, next, body) == [] && s.lookup.gives == [] ==>
              cache.handles == old(cache.handles) + LeftBehind(next, body, reply.read)
    ensures first == if old(cache.locked) then Stuck else if old(Present(cache.order, path)) then Answer else Fail
    ensures first != Fail ==> next == first
    ensures first == Answer ==> body == old(First(cache.order, path))
    ensures if body == null then next == Stuck || next == Fail else next != Fail && body.key == path
    ensures body != null && next != Stuck ==>
              && Goes(cache.Bounds(), s.meanwhile, from, seen, mid) && My(seen) == []
              && Replies(next, reply, data, r, calls)
              && (next == FillFirst && reply.read.Brought? ==> data == reply.read.data)
    ensures first == Answer ==>
              && from == World(old(cache.order), multiset{body}, Bag(theirs), false)
              && data == Holds(body, old(First(cache.order, path).data), seen)
    ensures first == Fail && (made.Wait? || made.created == null) ==> body == null
    ensures body == null || next == Stuck ==> r == null
    ensures next == Stuck || (next == Fail && made.Make? && made.created != null) ==> cache.locked
    ensures first == Fail && Alone(s.lookup) ==>
              && made.Make? && CreatedRight(status, made.created,
                                            old(Verdict(cache.Bounds(), cache.order, cache.handles, reply.fileSize)),
                                            old(Unshadowed(cache.order, cache.handles)), made.created == null)
    ensures first == Fail && Alone(s.lookup) && status == Ok ==>
              && body == made.created && body != null && fresh(body)
              && next == if reply.fileSize == 0 then Answer else FillFirst
  {
    ghost var end := Trail(Now(cache, multiset{}, theirs), [], []);
    first, next, body, status, r, calls, data, left, made, end, seen, from, mid :=
      ServeAndFinish(cache, path, now, stamp, reply, s, theirs, multiset{}, end);
    events := end.events;
    AtTheEnd(cache, path, s, theirs, left, first, made, next, body, reply, end);
  }

  /** What a request has left behind, and what the others have when they have not done anything. */
  lemma AtTheEnd(cache: CacheManager, path: CString, s: Schedule, before: seq<CacheBuffer>, left: seq<CacheBuffer>,
                 first: Next, made: Event, next: Next, body: CacheBuffer?, reply: Reply, t: Trail)
    requires Reaches(cache, t, LeftBehind(next, body, reply.read), left) && t.start.theirs == Bag(before)
    requires made == Wait || MadeFor(made, path, reply.fileSize, s.lookup.gives)
    requires My(t.events) == RequestCalls(path, first, made, next, body, reply.read)
    ensures forall b | b in LeftBehind(next, body, reply.read) :: b in cache.order && b.references > 0
    ensures t.ops == [] && s.lookup.gives == [] ==>
              cache.handles == Bag(before) + LeftBehind(next, body, reply.read)
  {
    MineStays(cache, LeftBehind(next, body, reply.read), left);
    if t.ops == [] && s.lookup.gives == [] {
      AloneBalances(cache.Bounds(), t.start, t.events, Now(cache, LeftBehind(next, body, reply.read), left), path,
                    reply.fileSize, first, made, next, body, reply.read);
    }
  }

  // ---- A request by itself ----

  const NOBODY: Others := Others([], [], [], [], [])

  /** The calls of a miss that creates `body`: the write handle of a failed read is the one that nobody gives back. */
  function MissAndRead(path: CString, made: Event, body: CacheBuffer, read: FileRead): seq<Event> {
    [Look(Mine, path, false)] + [made] + [Look(Mine, path, true)] + [Look(Mine, path, false)] +
    match read
    case Refused => [Give(Mine, body), Give(Mine, body)]
    case Failed => [Give(Mine, body)]
    case Brought(data) => [Fill(Mine, body, data), Give(Mine, body)]
  }

  lemma MissAndReadCalls(path: CString, made: Event, body: CacheBuffer, read: FileRead)
    requires made.Make? && made.created == body
    ensures RequestCalls(path, Fail, made, FillFirst, body, read) == MissAndRead(path, made, body, read)
    ensures LeftBehind(FillFirst, body, read) == if read.Failed? then multiset{body} else multiset{}
  {
    assert [] + [Look(Mine, path, false)] == [Look(Mine, path, false)];
  }

  /**
   The first request for a file, when nobody else makes a call: if its buffer can be created, its calls are these, and
   it sends nothing after a refused read, 403 after a failed one, and what the read brought otherwise.
   */
  method FirstRequest(cache: CacheManager, path: CString, now: int, stamp: int, reply: Reply, theirs: seq<CacheBuffer>)
    returns (status: Status, body: CacheBuffer?, r: ResponseWriter.RawResponse?, calls: nat, left: seq<CacheBuffer>,
             ghost made: Event, ghost events: seq<Event>)
    requires Dealt(cache, multiset{}, theirs) && !cache.locked && !Present(cache.order, path)
    requires reply.fileSize > 0 && MetaOk(reply.meta)
    modifies cache`usedMemory, cache`entryCount, cache`order, cache`history, cache`handles, cache`locked, cache.table
    modifies Elems(cache.order)`references, Elems(cache.order)`lastReference, Elems(cache.order)`data
    ensures status == Ok ==>
              && body != null && fresh(body) && MadeFor(made, path, reply.fileSize, []) && made.created == body
              && events == MissAndRead(path, made, body, reply.read)
              && Dealt(cache, if reply.read.Failed? then multiset{body} else multiset{}, left)
    ensures status == Ok ==>
              match reply.read
              case Refused => r == null
              case Failed => r != null && Refuses(r) && Written(r, reply.results, calls)
              case Brought(data) =>
                r != null && Carries(r, reply.meta, reply.fileSize, data) && Written(r, reply.results, calls)
  {
    var first, next, data;
    ghost var seen, from, mid;
    ghost var was, limits := Now(cache, multiset{}, theirs), cache.Bounds();
    first, next, body, status, r, calls, data, left, made, events, seen, from, mid :=
      ServeRequest(cache, path, now, stamp, reply, Schedule(NOBODY, [], [], []), theirs);
    if status == Ok {
      MissAndReadCalls(path, made, body, reply.read);
      OnlyMine(limits, was, events, Now(cache, LeftBehind(next, body, reply.read), left));
    }
  }

  // ---- A stale hit ----

  /** Both handles of a refused fill are given back, if there are any. */
  method RefuseFill(cache: CacheManager, next: Next, body: CacheBuffer?, theirs: seq<CacheBuffer>, ghost t: Trail)
    requires Reaches(cache, t, With(multiset{}, next, body), theirs) && (body != null ==> next == FillFirst)
    modifies cache`handles, Elems(cache.order)`references, Elems(cache.order)`data
    ensures Dealt(cache, multiset{}, theirs) && (body != null ==> body.data == old(body.data))
  {
    if body != null {
      assert body in cache.handles;
      ghost var end := FinishFill(cache, body, Refused, theirs, multiset{}, t);
      end := Destroy(cache, FillFirst, body, Refused, theirs, multiset{}, end);
    }
  }

  /** A miss, when nobody else makes a call. */
  method MissAlone(cache: CacheManager, path: CString, fileSize: nat, now: int, stamp: int, theirs: seq<CacheBuffer>)
    returns (status: Status, next: Next, body: CacheBuffer?, left: seq<CacheBuffer>, ghost t: Trail)
    requires Dealt(cache, multiset{}, theirs) && !cache.locked && !Present(cache.order, path) && fileSize > 0
    modifies cache`usedMemory, cache`entryCount, cache`order, cache`history, cache`handles, cache`locked, cache.table
    modifies Elems(cache.order)`references, Elems(cache.order)`lastReference, Elems(cache.order)`data
    ensures Reaches(cache, t, With(multiset{}, next, body), left)
    ensures forall b | b in cache.order :: b in old(cache.order) || fresh(b)
    ensures old(Unshadowed(cache.order, cache.handles)) ==>
              status == old(Verdict(cache.Bounds(), cache.order, cache.handles, fileSize))
    ensures (status == Ok <==> body != null) && (body != null ==> next == FillFirst)
    ensures body != null ==> body.data == [] && !cache.locked && Denotes(cache.order, body) && body.key == path
  {
    ghost var made;
    var first;
    t := Trail(Now(cache, multiset{}, theirs), [], []);
    first, next, body, status, left, made, t :=
      ServeFile(cache, path, fileSize, now, stamp, NOBODY, theirs, multiset{}, t);
  }

  /** A miss whose read the pool refuses leaves an empty buffer in the table, to which the path leads. */
  method MissRefused(cache: CacheManager, path: CString, fileSize: nat, now: int, stamp: int,
                     theirs: seq<CacheBuffer>)
    returns (status: Status, body: CacheBuffer?, left: seq<CacheBuffer>)
    requires Dealt(cache, multiset{}, theirs) && !cache.locked && !Present(cache.order, path) && fileSize > 0
    modifies cache`usedMemory, cache`entryCount, cache`order, cache`history, cache`handles, cache`locked, cache.table
    modifies Elems(cache.order)`references, Elems(cache.order)`lastReference, Elems(cache.order)`data
    ensures Dealt(cache, multiset{}, left)
    ensures forall b | b in cache.order :: b in old(cache.order) || fresh(b)
    ensures old(Unshadowed(cache.order, cache.handles)) ==>
              status == old(Verdict(cache.Bounds(), cache.order, cache.handles, fileSize))
    ensures status == Ok ==>
              && body != null && body.data == [] && !cache.locked
              && Present(cache.order, path) && First(cache.order, path) == body
  {
    ghost var t;
    var next;
    status, next, body, left, t := MissAlone(cache, path, fileSize, now, stamp, theirs);
    RefuseFill(cache, next, body, left, t);
  }

  /** The next request for the file, when the path leads to an empty buffer. */
  method HitEmpty(cache: CacheManager, path: CString, now: int, reply: Reply, theirs: seq<CacheBuffer>)
    returns (r: ResponseWriter.RawResponse?, calls: nat, left: seq<CacheBuffer>)
    requires Dealt(cache, multiset{}, theirs) && !cache.locked && MetaOk(reply.meta)
    requires Present(cache.order, path) && First(cache.order, path).data == []
    modifies cache`usedMemory, cache`entryCount, cache`order, cache`history, cache`handles, cache`locked, cache.table
    modifies Elems(cache.order)`references, Elems(cache.order)`lastReference, Elems(cache.order)`data
    ensures Dealt(cache, multiset{}, left)
    ensures r != null && Carries(r, reply.meta, reply.fileSize, []) && Written(r, reply.results, calls)
    ensures r.wire == r.Whole() ==> (Response.LengthHolds(r.wire) <==> reply.fileSize == 0)
  {
    var first, next, body, status, data;
    ghost var made, events, seen, from, mid;
    first, next, body, status, r, calls, data, left, made, events, seen, from, mid :=
      ServeRequest(cache, path, now, 0, reply, Schedule(NOBODY, [], [], []), theirs);
    NothingHappens(cache.Bounds(), from, seen, mid);
  }

  /**
   A read that the pool refuses is enough for a wrong response: the next request for the file gets a complete head,
   which announces the length of the file, and no body.
   */
  method StaleHit(cache: CacheManager, path: CString, now: int, stamp: int, reply: Reply, theirs: seq<CacheBuffer>)
    returns (status: Status, r: ResponseWriter.RawResponse?, calls: nat, left: seq<CacheBuffer>)
    requires Dealt(cache, multiset{}, theirs) && !cache.locked && !Present(cache.order, path)
    requires reply.fileSize > 0 && MetaOk(reply.meta)
    modifies cache`usedMemory, cache`entryCount, cache`order, cache`history, cache`handles, cache`locked, cache.table
    modifies Elems(cache.order)`references, Elems(cache.order)`lastReference, Elems(cache.order)`data
    ensures Dealt(cache, multiset{}, left)
    ensures old(Unshadowed(cache.order, cache.handles)) ==>
              status == old(Verdict(cache.Bounds(), cache.order, cache.handles, reply.fileSize))
    ensures status == Ok ==>
              && r != null && Carries(r, reply.meta, reply.fileSize, []) && Written(r, reply.results, calls)
              && (r.wire == r.Whole() ==> !Response.LengthHolds(r.wire))
  {
    var body;
    r, calls := null, 0;
    status, body, left := MissRefused(cache, path, reply.fileSize, now, stamp, theirs);
    if status == Ok {
      r, calls, left := HitEmpty(cache, path, now, reply, left);
    }
  }
}
