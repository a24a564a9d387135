/**
 The cache side of `_ProcessRequest`, `_ReadFileCallback` and the end of a response in src/server/worker.c, for a GET
 request: look the file up and, on a miss, create its buffer and take the two handles on it that the file read and
 the response need; send the response; give the handles back. Between any two calls other threads are at work.
 */
module Serving {
  import opened CBytes
  import opened Collections
  import opened Association
  import opened EvictionPlan
  import opened CacheModel
  import opened CacheRuns
  import opened Cache
  import opened CacheThreads

  /**
   What the request does next: it answers from the buffer, fills it first, ends in error, or waits for ever for the
   manager mutex, which a lookup for writing has kept.
   */
  datatype Next = Answer | FillFirst | Fail | Stuck

  /** What becomes of the file read: the reader pool refuses it, it fails, or it brings some bytes. */
  datatype FileRead = Refused | Failed | Brought(data: seq<byte>)

  /** What other threads do before each call of a request. */
  datatype Others = Others(beforeCreate: seq<Operation>, gives: seq<seq<nat>>, beforeWrite: seq<Operation>,
                           beforeRead: seq<Operation>, beforeLock: seq<Operation>)

  // ---- A run and how far it has got ----

  datatype Trail = Trail(start: World, ops: seq<Operation>, events: seq<Event>)

  /** The trail is a run of the model that ends in the present state of the cache. */
  ghost predicate Reaches(cache: CacheManager, t: Trail, mine: multiset<CacheBuffer>, theirs: seq<CacheBuffer>)
    reads cache, cache.table, cache.order`references
  {
    Dealt(cache, mine, theirs) && Goes(cache.Bounds(), t.ops, t.start, t.events, Now(cache, mine, theirs))
  }

  function Then(t: Trail, ops: seq<Operation>, events: seq<Event>): Trail {
    Trail(t.start, t.ops + ops, t.events + events)
  }

  lemma ThenGoes(l: Limits, t: Trail, w: World, ops: seq<Operation>, events: seq<Event>, end: World)
    requires Goes(l, t.ops, t.start, t.events, w) && Goes(l, ops, w, events, end)
    ensures var next := Then(t, ops, events);
            Goes(l, next.ops, next.start, next.events, end) && My(next.events) == My(t.events) + My(events)
  {
    GoesOn(l, t.ops, t.start, t.events, w, ops, events, end);
    MyGoesOn(t.events, events);
  }

  lemma ThenMine(l: Limits, t: Trail, w: World, e: Event)
    requires Goes(l, t.ops, t.start, t.events, w) && Legal(l, w, e) && IsMine(e)
    ensures var next := Then(t, [], [e]);
            && Goes(l, next.ops, next.start, next.events, Apply(l, w, e)) && next.ops == t.ops
            && My(next.events) == My(t.events) + [e]
  {
    MyStep(l, w, e);
    ThenGoes(l, t, w, [], [e], Apply(l, w, e));
  }

  /** Other threads are at work. */
  method LetOthers(cache: CacheManager, ops: seq<Operation>, theirs: seq<CacheBuffer>,
                   ghost mine: multiset<CacheBuffer>, ghost t: Trail)
    returns (left: seq<CacheBuffer>, ghost next: Trail, ghost events: seq<Event>)
    requires Reaches(cache, t, mine, theirs)
    modifies cache`usedMemory, cache`entryCount, cache`order, cache`history, cache`handles, cache`locked, cache.table
    modifies Elems(cache.order)`references, Elems(cache.order)`lastReference, Elems(cache.order)`data
    ensures Reaches(cache, next, mine, left) && My(next.events) == My(t.events)
    ensures next.start == t.start && next.ops == t.ops + ops && next.events == t.events + events
    ensures Goes(cache.Bounds(), ops, old(Now(cache, mine, theirs)), events, Now(cache, mine, left)) && My(events) == []
    ensures forall b | b in cache.order :: b in old(cache.order) || fresh(b)
    ensures old(cache.locked) ==> cache.locked
    ensures forall b | b in cache.order && b in old(cache.order) :: b.data == Holds(b, old(b.data), events)
  {
    ghost var w := Now(cache, mine, theirs);
    left, events := Interleave(cache, ops, theirs, mine);
    next := Then(t, ops, events);
    ThenGoes(cache.Bounds(), t, w, ops, events, Now(cache, mine, left));
    if w.locked {
      LockedForGood(cache.Bounds(), ops, w, events, Now(cache, mine, left));
    }
  }

  lemma DealtIsSafe(cache: CacheManager, mine: multiset<CacheBuffer>, theirs: seq<CacheBuffer>)
    requires Dealt(cache, mine, theirs)
    ensures Safe(Now(cache, mine, theirs))
  {
  }

  /** The request waits with a handle on `b`: the key of `b` still leads to it afterwards. */
  method PauseOn(cache: CacheManager, b: CacheBuffer, ops: seq<Operation>, theirs: seq<CacheBuffer>,
                 ghost mine: multiset<CacheBuffer>, ghost t: Trail)
    returns (left: seq<CacheBuffer>, ghost next: Trail)
    requires Reaches(cache, t, mine, theirs) && b in mine && Denotes(cache.order, b)
    modifies cache`usedMemory, cache`entryCount, cache`order, cache`history, cache`handles, cache`locked, cache.table
    modifies Elems(cache.order)`references, Elems(cache.order)`lastReference, Elems(cache.order)`data
    ensures Reaches(cache, next, mine, left) && My(next.events) == My(t.events)
    ensures next.start == t.start && next.ops == t.ops + ops
    ensures forall c | c in cache.order :: c in old(cache.order) || fresh(c)
    ensures Denotes(cache.order, b)
    ensures ops == [] ==> b.data == old(b.data) && cache.locked == old(cache.locked)
  {
    if ops == [] {
      return theirs, t;
    }
    ghost var events;
    ghost var w := Now(cache, mine, theirs);
    DealtIsSafe(cache, mine, theirs);
    left, next, events := LetOthers(cache, ops, theirs, mine, t);
    HeldIsFound(cache.Bounds(), ops, w, events, Now(cache, mine, left), b);
  }

  /** The request waits; if there is nobody else, nothing changes. */
  method Pause(cache: CacheManager, ops: seq<Operation>, theirs: seq<CacheBuffer>, ghost mine: multiset<CacheBuffer>,
               ghost t: Trail)
    returns (left: seq<CacheBuffer>, ghost next: Trail)
    requires Reaches(cache, t, mine, theirs)
    modifies cache`usedMemory, cache`entryCount, cache`order, cache`history, cache`handles, cache`locked, cache.table
    modifies Elems(cache.order)`references, Elems(cache.order)`lastReference, Elems(cache.order)`data
    ensures Reaches(cache, next, mine, left) && My(next.events) == My(t.events)
    ensures next.start == t.start && next.ops == t.ops + ops
    ensures forall c | c in cache.order :: c in old(cache.order) || fresh(c)
    ensures old(cache.locked) ==> cache.locked
    ensures ops == [] ==> unchanged(cache) && forall c | c in cache.order :: unchanged(c)
  {
    if ops == [] {
      return theirs, t;
    }
    ghost var events;
    left, next, events := LetOthers(cache, ops, theirs, mine, t);
  }

  // ---- The calls of the request ----

  lemma LookIsApply(l: Limits, w: World, key: CString, write: bool, end: World)
    requires !w.locked && end == Looked(w, Mine, key, write)
    ensures Legal(l, w, Look(Mine, key, write)) && end == Apply(l, w, Look(Mine, key, write))
  {
  }

  method MyLookup(cache: CacheManager, path: CString, now: int, theirs: seq<CacheBuffer>,
                  ghost mine: multiset<CacheBuffer>, ghost t: Trail)
    returns (r: CacheBuffer?, ghost next: Trail)
    requires Reaches(cache, t, mine, theirs) && !cache.locked
    modifies cache`handles, cache`locked, Elems(cache.order)`references, Elems(cache.order)`lastReference
    ensures r == null ==> cache.handles == old(cache.handles)
    ensures r == null ==> Unshadowed(cache.order, cache.handles) == old(Unshadowed(cache.order, cache.handles))
    ensures !cache.locked && r == if Present(cache.order, path) then First(cache.order, path) else null
    ensures Reaches(cache, next, if r == null then mine else mine + multiset{r}, theirs)
    ensures next.start == t.start && next.ops == t.ops
    ensures My(next.events) == My(t.events) + [Look(Mine, path, false)]
  {
    ghost var w, out := Now(cache, mine, theirs), cache.handles;
    r := cache.GetBuffer(path, now);
    ghost var held := if r == null then mine else mine + multiset{r};
    if r != null {
      OneMore(out, mine, Bag(theirs), r);
    }
    next := Then(t, [], [Look(Mine, path, false)]);
    LookIsApply(cache.Bounds(), w, path, false, Now(cache, held, theirs));
    ThenMine(cache.Bounds(), t, w, Look(Mine, path, false));
  }

  /** On a miss the mutex stays held. */
  method MyWriteLookup(cache: CacheManager, path: CString, now: int, theirs: seq<CacheBuffer>,
                       ghost mine: multiset<CacheBuffer>, ghost t: Trail)
    returns (r: CacheBuffer?, ghost next: Trail)
    requires Reaches(cache, t, mine, theirs) && !cache.locked
    modifies cache`handles, cache`locked, Elems(cache.order)`references, Elems(cache.order)`lastReference
    ensures cache.locked == (r == null) && r == if Present(cache.order, path) then First(cache.order, path) else null
    ensures Reaches(cache, next, if r == null then mine else mine + multiset{r}, theirs)
    ensures next.start == t.start && next.ops == t.ops
    ensures My(next.events) == My(t.events) + [Look(Mine, path, true)]
  {
    ghost var w, out := Now(cache, mine, theirs), cache.handles;
    r := cache.GetWriteBuffer(path, now);
    ghost var held := if r == null then mine else mine + multiset{r};
    if r != null {
      OneMore(out, mine, Bag(theirs), r);
    }
    next := Then(t, [], [Look(Mine, path, true)]);
    LookIsApply(cache.Bounds(), w, path, true, Now(cache, held, theirs));
    ThenMine(cache.Bounds(), t, w, Look(Mine, path, true));
  }

  lemma ReturnIsApply(l: Limits, w: World, e: Event, b: CacheBuffer, rest: multiset<CacheBuffer>)
    requires w.mine == rest + multiset{b} && (e == Give(Mine, b) || (e.Fill? && e.who == Mine && e.b == b))
    ensures Legal(l, w, e) && w.(mine := rest) == Apply(l, w, e)
  {
    assert w.mine - multiset{b} == rest;
  }

  lemma MineIsOut(mine: multiset<CacheBuffer>, rest: multiset<CacheBuffer>, theirs: multiset<CacheBuffer>,
                  b: CacheBuffer, out: multiset<CacheBuffer>, out': multiset<CacheBuffer>)
    requires mine == rest + multiset{b} && out == mine + theirs && out == out' + multiset{b}
    ensures out' == rest + theirs
  {
    assert out' == out - multiset{b} && rest + theirs == out - multiset{b};
  }

  method GiveBack(cache: CacheManager, b: CacheBuffer, theirs: seq<CacheBuffer>, ghost rest: multiset<CacheBuffer>)
    requires Dealt(cache, rest + multiset{b}, theirs)
    modifies cache`handles, b`references
    ensures Dealt(cache, rest, theirs)
  {
    ghost var out := cache.handles;
    assert b in out;
    cache.ReleaseBuffer(b);
    MineIsOut(rest + multiset{b}, rest, Bag(theirs), b, out, cache.handles);
  }

  method MyRelease(cache: CacheManager, b: CacheBuffer, theirs: seq<CacheBuffer>, ghost rest: multiset<CacheBuffer>,
                   ghost t: Trail)
    returns (ghost next: Trail)
    requires Reaches(cache, t, rest + multiset{b}, theirs)
    modifies cache`handles, b`references
    ensures Reaches(cache, next, rest, theirs)
    ensures next.start == t.start && next.ops == t.ops
    ensures My(next.events) == My(t.events) + [Give(Mine, b)]
  {
    ghost var w := Now(cache, rest + multiset{b}, theirs);
    GiveBack(cache, b, theirs, rest);
    next := Then(t, [], [Give(Mine, b)]);
    ReturnIsApply(cache.Bounds(), w, Give(Mine, b), b, rest);
    ThenMine(cache.Bounds(), t, w, Give(Mine, b));
  }

  /** The callback of a successful read: the bytes are in the buffer, and the write handle is given back. */
  method MyFill(cache: CacheManager, b: CacheBuffer, data: seq<byte>, theirs: seq<CacheBuffer>,
                ghost rest: multiset<CacheBuffer>, ghost t: Trail)
    returns (ghost next: Trail)
    requires Reaches(cache, t, rest + multiset{b}, theirs)
    modifies cache`handles, b`references, b`data
    ensures Reaches(cache, next, rest, theirs) && b.data == data
    ensures next.start == t.start && next.ops == t.ops
    ensures My(next.events) == My(t.events) + [Fill(Mine, b, data)]
  {
    ghost var w := Now(cache, rest + multiset{b}, theirs);
    b.data := data;
    GiveBack(cache, b, theirs, rest);
    next := Then(t, [], [Fill(Mine, b, data)]);
    ReturnIsApply(cache.Bounds(), w, Fill(Mine, b, data), b, rest);
    ThenMine(cache.Bounds(), t, w, Fill(Mine, b, data));
  }

  // ---- The handles of a miss ----

  /** The handles that a request has after it has looked for its buffer, when it had `mine` before. */
  function With(mine: multiset<CacheBuffer>, next: Next, body: CacheBuffer?): multiset<CacheBuffer> {
    if body == null then mine
    else if next == FillFirst then mine + multiset{body} + multiset{body}
    else mine + multiset{body}
  }

  /** After the calls `my`: those that take the handles of a miss, as far as they get. */
  function HoldCalls(my: seq<Event>, path: CString, next: Next, body: CacheBuffer?): seq<Event> {
    if body == null then my + LookCalls(path, true, next)
    else
      my + [Look(Mine, path, true)] + LookCalls(path, false, next) + if next == Answer then [Give(Mine, body)] else []
  }

  /** What the others have done by then. */
  function HoldOps(ops: seq<Operation>, o: Others, next: Next, body: CacheBuffer?): seq<Operation> {
    if body == null then ops + o.beforeWrite
    else ops + o.beforeWrite + o.beforeRead + if next == Stuck then [] else o.beforeLock
  }

  /** The calls made by a lookup that may have to wait for ever. */
  function LookCalls(path: CString, write: bool, next: Next): seq<Event> {
    if next == Stuck then [] else [Look(Mine, path, write)]
  }

  /** The lookup for writing. A miss is an error of the request, and the mutex stays held. */
  method TryWriteLookup(cache: CacheManager, path: CString, now: int, theirs: seq<CacheBuffer>,
                        ghost mine: multiset<CacheBuffer>, ghost t: Trail)
    returns (next: Next, body: CacheBuffer?, ghost held: multiset<CacheBuffer>, ghost end: Trail)
    requires Reaches(cache, t, mine, theirs)
    modifies cache`handles, cache`locked, Elems(cache.order)`references, Elems(cache.order)`lastReference
    ensures Reaches(cache, end, held, theirs) && end.start == t.start && end.ops == t.ops
    ensures held == if body == null then mine else mine + multiset{body}
    ensures My(end.events) == My(t.events) + LookCalls(path, true, next)
    ensures next == if body != null then Answer else if old(cache.locked) then Stuck else Fail
    ensures body != null <==> !old(cache.locked) && Present(cache.order, path)
    ensures body != null ==> Denotes(cache.order, body) && body.key == path
    ensures cache.locked <==> body == null
  {
    if cache.locked {
      return Stuck, null, mine, t;
    }
    body, end := MyWriteLookup(cache, path, now, theirs, mine, t);
    if body == null {
      next, held := Fail, mine;
    } else {
      next, held := Answer, mine + multiset{body};
    }
  }

  method HoldWrite(cache: CacheManager, path: CString, now: int, ops: seq<Operation>, theirs: seq<CacheBuffer>,
                   ghost mine: multiset<CacheBuffer>, ghost t: Trail)
    returns (next: Next, body: CacheBuffer?, left: seq<CacheBuffer>, ghost held: multiset<CacheBuffer>,
             ghost end: Trail)
    requires Reaches(cache, t, mine, theirs)
    modifies cache`usedMemory, cache`entryCount, cache`order, cache`history, cache`handles, cache`locked, cache.table
    modifies Elems(cache.order)`references, Elems(cache.order)`lastReference, Elems(cache.order)`data
    ensures Reaches(cache, end, held, left) && end.start == t.start && end.ops == t.ops + ops
    ensures held == if body == null then mine else mine + multiset{body}
    ensures My(end.events) == My(t.events) + LookCalls(path, true, next)
    ensures next != FillFirst && (next == Answer <==> body != null)
    ensures body != null ==> Denotes(cache.order, body) && body.key == path
    ensures cache.locked <==> body == null
    ensures forall b | b in cache.order :: b in old(cache.order) || fresh(b)
    ensures ops == [] ==> cache.order == old(cache.order) && forall c | c in cache.order :: c.data == old(c.data)
    ensures ops == [] && old(Present(cache.order, path) && !cache.locked) ==> body != null
  {
    left, end := Pause(cache, ops, theirs, mine, t);
    next, body, held, end := TryWriteLookup(cache, path, now, left, mine, end);
  }

  /** The lookup for reading, which finds the buffer that the request has a handle on. */
  method TryLookup(cache: CacheManager, b: CacheBuffer, now: int, theirs: seq<CacheBuffer>,
                   ghost mine: multiset<CacheBuffer>, ghost t: Trail)
    returns (next: Next, ghost held: multiset<CacheBuffer>, ghost end: Trail)
    requires Reaches(cache, t, mine, theirs) && Denotes(cache.order, b)
    modifies cache`handles, cache`locked, Elems(cache.order)`references, Elems(cache.order)`lastReference
    ensures Reaches(cache, end, held, theirs) && end.start == t.start && end.ops == t.ops
    ensures next == if old(cache.locked) then Stuck else Answer
    ensures held == if next == Stuck then mine else mine + multiset{b}
    ensures My(end.events) == My(t.events) + LookCalls(b.key, false, next)
    ensures cache.locked == old(cache.locked)
  {
    if cache.locked {
      return Stuck, mine, t;
    }
    var r;
    r, end := MyLookup(cache, b.key, now, theirs, mine, t);
    if r == null {
      assert false;
    }
    next, held := Answer, mine + multiset{b};
  }

  method HoldRead(cache: CacheManager, b: CacheBuffer, now: int, ops: seq<Operation>, theirs: seq<CacheBuffer>,
                  ghost mine: multiset<CacheBuffer>, ghost t: Trail)
    returns (next: Next, left: seq<CacheBuffer>, ghost held: multiset<CacheBuffer>, ghost end: Trail)
    requires Reaches(cache, t, mine, theirs) && b in mine && Denotes(cache.order, b)
    modifies cache`usedMemory, cache`entryCount, cache`order, cache`history, cache`handles, cache`locked, cache.table
    modifies Elems(cache.order)`references, Elems(cache.order)`lastReference, Elems(cache.order)`data
    ensures Reaches(cache, end, held, left) && end.start == t.start && end.ops == t.ops + ops
    ensures (next == Answer || next == Stuck) && held == if next == Stuck then mine else mine + multiset{b}
    ensures My(end.events) == My(t.events) + LookCalls(b.key, false, next)
    ensures Denotes(cache.order, b) && (cache.locked <==> next == Stuck)
    ensures forall c | c in cache.order :: c in old(cache.order) || fresh(c)
    ensures ops == [] ==> b.data == old(b.data) && (cache.locked <==> old(cache.locked))
  {
    left, end := PauseOn(cache, b, ops, theirs, mine, t);
    next, held, end := TryLookup(cache, b, now, left, mine, end);
  }

  /** What is filled in decides, once the buffer's own lock is free: all of the file, or the file has to be read. */
  method Settle(cache: CacheManager, b: CacheBuffer, fileSize: nat, theirs: seq<CacheBuffer>,
                ghost mine: multiset<CacheBuffer>, ghost t: Trail)
    returns (next: Next, ghost end: Trail)
    requires Reaches(cache, t, With(mine, FillFirst, b), theirs)
    modifies cache`handles, b`references
    ensures next == if |b.data| == fileSize then Answer else FillFirst
    ensures Reaches(cache, end, With(mine, next, b), theirs) && end.start == t.start && end.ops == t.ops
    ensures My(end.events) == My(t.events) + if next == Answer then [Give(Mine, b)] else []
  {
    next, end := FillFirst, t;
    if |b.data| == fileSize {
      end := MyRelease(cache, b, theirs, mine + multiset{b}, t);
      next := Answer;
    }
  }

  method HoldLock(cache: CacheManager, b: CacheBuffer, fileSize: nat, ops: seq<Operation>, theirs: seq<CacheBuffer>,
                  ghost mine: multiset<CacheBuffer>, ghost held: multiset<CacheBuffer>, ghost t: Trail)
    returns (next: Next, left: seq<CacheBuffer>, ghost end: Trail)
    requires Reaches(cache, t, held, theirs) && held == With(mine, FillFirst, b) && b in held
    requires Denotes(cache.order, b)
    modifies cache`usedMemory, cache`entryCount, cache`order, cache`history, cache`handles, cache`locked, cache.table
    modifies Elems(cache.order)`references, Elems(cache.order)`lastReference, Elems(cache.order)`data
    ensures next == if |b.data| == fileSize then Answer else FillFirst
    ensures Reaches(cache, end, With(mine, next, b), left) && end.start == t.start && end.ops == t.ops + ops
    ensures My(end.events) == My(t.events) + if next == Answer then [Give(Mine, b)] else []
    ensures Denotes(cache.order, b)
    ensures forall c | c in cache.order :: c in old(cache.order) || fresh(c)
    ensures ops == [] ==> b.data == old(b.data) && (cache.locked <==> old(cache.locked))
  {
    left, end := PauseOn(cache, b, ops, theirs, held, t);
    next, end := Settle(cache, b, fileSize, left, mine, end);
  }

  /** The same, unless the request is stuck already. */
  method HoldLockIf(cache: CacheManager, before: Next, b: CacheBuffer, fileSize: nat, ops: seq<Operation>,
                    theirs: seq<CacheBuffer>, ghost mine: multiset<CacheBuffer>, ghost held: multiset<CacheBuffer>,
                    ghost t: Trail)
    returns (next: Next, left: seq<CacheBuffer>, ghost end: Trail)
    requires Reaches(cache, t, held, theirs) && Denotes(cache.order, b)
    requires held == With(mine, if before == Stuck then Stuck else FillFirst, b)
    modifies cache`usedMemory, cache`entryCount, cache`order, cache`history, cache`handles, cache`locked, cache.table
    modifies Elems(cache.order)`references, Elems(cache.order)`lastReference, Elems(cache.order)`data
    ensures next == if before == Stuck then Stuck else if |b.data| == fileSize then Answer else FillFirst
    ensures Reaches(cache, end, With(mine, next, b), left) && end.start == t.start
    ensures end.ops == t.ops + if next == Stuck then [] else ops
    ensures My(end.events) == My(t.events) + if next == Answer then [Give(Mine, b)] else []
    ensures Denotes(cache.order, b)
    ensures forall c | c in cache.order :: c in old(cache.order) || fresh(c)
    ensures ops == [] ==> b.data == old(b.data) && (cache.locked <==> old(cache.locked))
    ensures next == Stuck ==> cache.locked == old(cache.locked)
  {
    next, left, end := before, theirs, t;
    if before != Stuck {
      next, left, end := HoldLock(cache, b, fileSize, ops, theirs, mine, held, t);
    }
  }

  method HoldRest(cache: CacheManager, b: CacheBuffer, fileSize: nat, now: int, o: Others, theirs: seq<CacheBuffer>,
                  ghost mine: multiset<CacheBuffer>, ghost held: multiset<CacheBuffer>, ghost t: Trail)
    returns (next: Next, left: seq<CacheBuffer>, ghost end: Trail)
    requires Reaches(cache, t, held, theirs) && held == mine + multiset{b} && Denotes(cache.order, b)
    modifies cache`usedMemory, cache`entryCount, cache`order, cache`history, cache`handles, cache`locked, cache.table
    modifies Elems(cache.order)`references, Elems(cache.order)`lastReference, Elems(cache.order)`data
    ensures Reaches(cache, end, With(mine, next, b), left) && end.start == t.start
    ensures end.ops == t.ops + o.beforeRead + if next == Stuck then [] else o.beforeLock
    ensures My(end.events) ==
            My(t.events) + LookCalls(b.key, false, next) + if next == Answer then [Give(Mine, b)] else []
    ensures next != Fail && Denotes(cache.order, b)
    ensures next != Stuck ==> next == if |b.data| == fileSize then Answer else FillFirst
    ensures forall c | c in cache.order :: c in old(cache.order) || fresh(c)
    ensures o.beforeRead == o.beforeLock == [] ==> b.data == old(b.data) && (cache.locked <==> old(cache.locked))
    ensures next == Stuck ==> cache.locked && (o.beforeRead != [] || old(cache.locked))
  {
    ghost var both;
    next, left, both, end := HoldRead(cache, b, now, o.beforeRead, theirs, held, t);
    next, left, end := HoldLockIf(cache, next, b, fileSize, o.beforeLock, left, mine, both, end);
  }

  // ---- A miss ----

  /** The rest of a miss, unless there is no write handle. */
  method HoldRestIf(cache: CacheManager, before: Next, b: CacheBuffer?, fileSize: nat, now: int, o: Others,
                    theirs: seq<CacheBuffer>, ghost mine: multiset<CacheBuffer>, ghost held: multiset<CacheBuffer>,
                    ghost t: Trail)
    returns (next: Next, left: seq<CacheBuffer>, ghost end: Trail)
    requires Reaches(cache, t, held, theirs) && held == if b == null then mine else mine + multiset{b}
    requires (b != null ==> Denotes(cache.order, b)) && (b == null ==> before == Stuck || before == Fail)
    modifies cache`usedMemory, cache`entryCount, cache`order, cache`history, cache`handles, cache`locked, cache.table
    modifies Elems(cache.order)`references, Elems(cache.order)`lastReference, Elems(cache.order)`data
    ensures Reaches(cache, end, With(mine, next, b), left) && end.start == t.start
    ensures end.ops == if b == null then t.ops else t.ops + o.beforeRead + if next == Stuck then [] else o.beforeLock
    ensures My(end.events) ==
            if b == null then My(t.events)
            else My(t.events) + LookCalls(b.key, false, next) + if next == Answer then [Give(Mine, b)] else []
    ensures if b == null then next == before else next != Fail && Denotes(cache.order, b)
    ensures b != null && next != Stuck ==> next == if |b.data| == fileSize then Answer else FillFirst
    ensures forall c | c in cache.order :: c in old(cache.order) || fresh(c)
    ensures b != null && o.beforeRead == o.beforeLock == [] ==>
              b.data == old(b.data) && (cache.locked <==> old(cache.locked))
    ensures b == null ==> unchanged(cache)
    ensures b != null && next == Stuck ==> cache.locked && (o.beforeRead != [] || old(cache.locked))
  {
    next, left, end := before, theirs, t;
    if b != null {
      next, left, end := HoldRest(cache, b, fileSize, now, o, theirs, mine, held, t);
    }
  }

  /** The two lookups behind a creation, with what others do before each of them. */
  method HoldMiss(cache: CacheManager, path: CString, fileSize: nat, now: int, o: Others, theirs: seq<CacheBuffer>,
                  ghost mine: multiset<CacheBuffer>, ghost t: Trail)
    returns (next: Next, body: CacheBuffer?, left: seq<CacheBuffer>, ghost end: Trail)
    requires Reaches(cache, t, mine, theirs)
    modifies cache`usedMemory, cache`entryCount, cache`order, cache`history, cache`handles, cache`locked, cache.table
    modifies Elems(cache.order)`references, Elems(cache.order)`lastReference, Elems(cache.order)`data
    ensures Reaches(cache, end, With(mine, next, body), left) && end.start == t.start
    ensures end.ops == HoldOps(t.ops, o, next, body)
    ensures My(end.events) == HoldCalls(My(t.events), path, next, body)
    ensures body == null ==> (next == Stuck || next == Fail) && cache.locked
    ensures body != null ==> next != Fail && Denotes(cache.order, body) && body.key == path
    ensures body != null && next != Stuck ==> next == if |body.data| == fileSize then Answer else FillFirst
    ensures next == Stuck ==> cache.locked
    ensures forall c | c in cache.order :: c in old(cache.order) || fresh(c)
    ensures o.beforeWrite == o.beforeRead == o.beforeLock == [] && old(!cache.locked && Present(cache.order, path)) ==>
              && next != Stuck && !cache.locked && body == old(First(cache.order, path))
              && body.data == old(First(cache.order, path).data)
  {
    ghost var held;
    var before;
    before, body, left, held, end := HoldWrite(cache, path, now, o.beforeWrite, theirs, mine, t);
    next, left, end := HoldRestIf(cache, before, body, fileSize, now, o, left, mine, held, end);
  }

  /** The creation on a miss. `made` is what it was, unless the request has to wait for ever. */
  method TryCreate(cache: CacheManager, path: CString, fileSize: nat, stamp: int, gives: seq<seq<nat>>,
                   theirs: seq<CacheBuffer>, ghost mine: multiset<CacheBuffer>, ghost t: Trail)
    returns (next: Next, status: Status, created: CacheBuffer?, left: seq<CacheBuffer>, ghost made: Event,
             ghost end: Trail)
    requires Reaches(cache, t, mine, theirs)
    modifies cache`usedMemory, cache`entryCount, cache`order, cache`history, cache`handles, cache.table
    modifies Elems(cache.order)`references
    ensures Reaches(cache, end, mine, left) && end.start == t.start && end.ops == t.ops
    ensures My(end.events) == if made.Wait? then My(t.events) else My(t.events) + [made]
    ensures if cache.locked then made == Wait && next == Stuck && created == null
            else MadeFor(made, path, fileSize, gives)
    ensures made.Make? ==> made.created == created && next == if created == null then Fail else Answer
    ensures cache.locked == old(cache.locked)
    ensures forall b | b in cache.order :: b in old(cache.order) || (b == created && fresh(b))
    ensures created != null ==> fresh(created) && created.data == [] && created.size == fileSize
    ensures made.Make? ==>
              CreatedRight(status, created, old(Verdict(cache.Bounds(), cache.order, cache.handles, fileSize)),
                           old(Unshadowed(cache.order, cache.handles)), cache.order == old(cache.order))
    ensures created != null && old(!Present(cache.order, path)) ==>
              Present(cache.order, path) && First(cache.order, path) == created
  {
    if cache.locked {
      return Stuck, Ok, null, theirs, Wait, t;
    }
    ghost var w := Now(cache, mine, theirs);
    left, status, created, made := MakeBuffer(cache, Mine, path, fileSize, stamp, gives, theirs, mine);
    end := Then(t, [], [made]);
    ThenMine(cache.Bounds(), t, w, made);
    next := if created == null then Fail else Answer;
  }

  ghost predicate MadeFor(e: Event, path: CString, size: nat, gives: seq<seq<nat>>) {
    e.Make? && e.who == Mine && e.key == path && e.size == size && Fits(e.releases, gives)
  }

  /**
   What a creation answers: Ok with a buffer or an error without one; the verdict, if that is an error or if no idle
   buffer is shadowed; and then an error leaves everything in place.
   */
  ghost predicate CreatedRight(status: Status, created: CacheBuffer?, verdict: Status, unshadowed: bool, same: bool) {
    && (status == Ok <==> created != null)
    && (verdict != Ok || unshadowed ==> status == verdict && (created == null ==> same))
  }

  method CreateMiss(cache: CacheManager, path: CString, fileSize: nat, stamp: int, o: Others,
                    theirs: seq<CacheBuffer>, ghost mine: multiset<CacheBuffer>, ghost t: Trail)
    returns (next: Next, status: Status, created: CacheBuffer?, left: seq<CacheBuffer>, ghost made: Event,
             ghost end: Trail)
    requires Reaches(cache, t, mine, theirs)
    modifies cache`usedMemory, cache`entryCount, cache`order, cache`history, cache`handles, cache`locked, cache.table
    modifies Elems(cache.order)`references, Elems(cache.order)`lastReference, Elems(cache.order)`data
    ensures Reaches(cache, end, mine, left) && end.start == t.start && end.ops == t.ops + o.beforeCreate
    ensures My(end.events) == if made.Wait? then My(t.events) else My(t.events) + [made]
    ensures if cache.locked then made == Wait && next == Stuck && created == null
            else MadeFor(made, path, fileSize, o.gives)
    ensures made.Make? ==> made.created == created && next == if created == null then Fail else Answer
    ensures forall b | b in cache.order :: b in old(cache.order) || fresh(b)
    ensures created != null ==> fresh(created) && created.data == [] && created.size == fileSize
    ensures o.beforeCreate == [] ==> cache.locked == old(cache.locked)
    ensures o.beforeCreate == [] && made.Make? ==>
              CreatedRight(status, created, old(Verdict(cache.Bounds(), cache.order, cache.handles, fileSize)),
                           old(Unshadowed(cache.order, cache.handles)), cache.order == old(cache.order))
    ensures o.beforeCreate == [] && created != null && old(!Present(cache.order, path)) ==>
              Present(cache.order, path) && First(cache.order, path) == created
  {
    left, end := Pause(cache, o.beforeCreate, theirs, mine, t);
    next, status, created, left, made, end := TryCreate(cache, path, fileSize, stamp, o.gives, left, mine, end);
  }

  /** The two lookups, unless there is no new buffer. */
  method HoldMissIf(cache: CacheManager, before: Next, path: CString, fileSize: nat, now: int, o: Others,
                    theirs: seq<CacheBuffer>, ghost mine: multiset<CacheBuffer>, ghost t: Trail)
    returns (next: Next, body: CacheBuffer?, left: seq<CacheBuffer>, ghost end: Trail)
    requires Reaches(cache, t, mine, theirs)
    modifies cache`usedMemory, cache`entryCount, cache`order, cache`history, cache`handles, cache`locked, cache.table
    modifies Elems(cache.order)`references, Elems(cache.order)`lastReference, Elems(cache.order)`data
    ensures Reaches(cache, end, With(mine, next, body), left) && end.start == t.start
    ensures end.ops == if before == Answer then HoldOps(t.ops, o, next, body) else t.ops
    ensures My(end.events) == if before == Answer then HoldCalls(My(t.events), path, next, body) else My(t.events)
    ensures before != Answer ==> next == before && body == null && unchanged(cache)
    ensures before == Answer && body == null ==> (next == Stuck || next == Fail) && cache.locked
    ensures body != null ==> next != Fail && Denotes(cache.order, body) && body.key == path
    ensures body != null && next != Stuck ==> next == if |body.data| == fileSize then Answer else FillFirst
    ensures before == Answer && next == Stuck ==> cache.locked
    ensures forall c | c in cache.order :: c in old(cache.order) || fresh(c)
    ensures before == Answer && o.beforeWrite == o.beforeRead == o.beforeLock == [] &&
            old(!cache.locked && Present(cache.order, path)) ==>
              && next != Stuck && !cache.locked && body == old(First(cache.order, path))
              && body.data == old(First(cache.order, path).data)
  {
    next, body, left, end := before, null, theirs, t;
    if before == Answer {
      next, body, left, end := HoldMiss(cache, path, fileSize, now, o, theirs, mine, t);
    }
  }

  /** The calls of a miss after the calls `my`. */
  function MissCalls(my: seq<Event>, path: CString, made: Event, next: Next, body: CacheBuffer?): seq<Event>
    requires made.Wait? || made.Make?
  {
    if made.Wait? then my
    else if made.created == null then my + [made]
    else HoldCalls(my + [made], path, next, body)
  }

  function MissOps(ops: seq<Operation>, o: Others, made: Event, next: Next, body: CacheBuffer?): seq<Operation>
    requires made.Wait? || made.Make?
  {
    if made.Wait? || made.created == null then ops + o.beforeCreate
    else HoldOps(ops + o.beforeCreate, o, next, body)
  }

  /** Nobody else makes a call meanwhile, except for releases during the creation. */
  predicate Alone(o: Others) {
    o.beforeCreate == o.beforeWrite == o.beforeRead == o.beforeLock == []
  }

  /**
   The miss path. A file that is as long as what is filled in needs no read, so its write handle is given back at
   once; any other file is left with both handles on the buffer that its path leads to.
   */
  method ServeMiss(cache: CacheManager, path: CString, fileSize: nat, now: int, stamp: int, o: Others,
                   theirs: seq<CacheBuffer>, ghost mine: multiset<CacheBuffer>, ghost t: Trail)
    returns (next: Next, body: CacheBuffer?, status: Status, left: seq<CacheBuffer>, ghost made: Event,
             ghost end: Trail)
    requires Reaches(cache, t, mine, theirs)
    modifies cache`usedMemory, cache`entryCount, cache`order, cache`history, cache`handles, cache`locked, cache.table
    modifies Elems(cache.order)`references, Elems(cache.order)`lastReference, Elems(cache.order)`data
    ensures Reaches(cache, end, With(mine, next, body), left) && end.start == t.start
    ensures made == Wait || MadeFor(made, path, fileSize, o.gives)
    ensures end.ops == MissOps(t.ops, o, made, next, body)
    ensures My(end.events) == MissCalls(My(t.events), path, made, next, body)
    ensures body == null ==> next == if made.Make? && (made.created == null || next == Fail) then Fail else Stuck
    ensures body != null ==> next != Fail && Denotes(cache.order, body) && body.key == path && made.Make?
    ensures body != null && next != Stuck ==> next == if |body.data| == fileSize then Answer else FillFirst
    ensures made.Wait? || made.created == null ==> body == null
    ensures next == Stuck || (next == Fail && made.Make? && made.created != null) ==> cache.locked
    ensures forall b | b in cache.order :: b in old(cache.order) || fresh(b)
    ensures Alone(o) && old(!cache.locked) ==>
              && made.Make? && CreatedRight(status, made.created,
                                            old(Verdict(cache.Bounds(), cache.order, cache.handles, fileSize)),
                                            old(Unshadowed(cache.order, cache.handles)),
                                            made.created == null && cache.order == old(cache.order))
    ensures Alone(o) && old(!cache.locked && !Present(cache.order, path)) && status == Ok ==>
              && body == made.created && body != null && fresh(body) && body.size == fileSize && body.data == []
              && !cache.locked
              && next == if fileSize == 0 then Answer else FillFirst
  {
    var created, before;
    before, status, created, left, made, end := CreateMiss(cache, path, fileSize, stamp, o, theirs, mine, t);
    next, body, left, end := HoldMissIf(cache, before, path, fileSize, now, o, left, mine, end);
  }

  // ---- Hit or miss ----

  /** The first lookup: a hit, a miss, or a wait for ever. */
  method TryFirst(cache: CacheManager, path: CString, now: int, theirs: seq<CacheBuffer>,
                  ghost mine: multiset<CacheBuffer>, ghost t: Trail)
    returns (next: Next, body: CacheBuffer?, ghost held: multiset<CacheBuffer>, ghost end: Trail)
    requires Reaches(cache, t, mine, theirs)
    modifies cache`handles, cache`locked, Elems(cache.order)`references, Elems(cache.order)`lastReference
    ensures Reaches(cache, end, held, theirs) && end.start == t.start && end.ops == t.ops
    ensures held == if body == null then mine else mine + multiset{body}
    ensures My(end.events) == My(t.events) + LookCalls(path, false, next)
    ensures next == if body != null then Answer else if cache.locked then Stuck else Fail
    ensures body == if !cache.locked && Present(cache.order, path) then First(cache.order, path) else null
    ensures cache.locked == old(cache.locked)
    ensures body == null ==> cache.handles == old(cache.handles)
    ensures body == null ==> Unshadowed(cache.order, cache.handles) == old(Unshadowed(cache.order, cache.handles))
  {
    if cache.locked {
      return Stuck, null, mine, t;
    }
    body, end := MyLookup(cache, path, now, theirs, mine, t);
    if body == null {
      next, held := Fail, mine;
    } else {
      next, held := Answer, mine + multiset{body};
    }
  }

  /** The miss path, if the first lookup was a miss. */
  method ServeMissIf(cache: CacheManager, first: Next, hit: CacheBuffer?, path: CString, fileSize: nat, now: int,
                     stamp: int, o: Others, theirs: seq<CacheBuffer>, ghost mine: multiset<CacheBuffer>,
                     ghost held: multiset<CacheBuffer>, ghost t: Trail)
    returns (next: Next, body: CacheBuffer?, status: Status, left: seq<CacheBuffer>, ghost made: Event,
             ghost end: Trail)
    requires Reaches(cache, t, held, theirs) && held == if hit == null then mine else mine + multiset{hit}
    requires (first == Answer <==> hit != null) && (hit != null ==> Denotes(cache.order, hit) && hit.key == path)
    requires first != FillFirst && (first == Stuck ==> cache.locked)
    modifies cache`usedMemory, cache`entryCount, cache`order, cache`history, cache`handles, cache`locked, cache.table
    modifies Elems(cache.order)`references, Elems(cache.order)`lastReference, Elems(cache.order)`data
    ensures Reaches(cache, end, With(mine, next, body), left) && end.start == t.start
    ensures if first == Fail then made == Wait || MadeFor(made, path, fileSize, o.gives) else made == Wait
    ensures end.ops == if first == Fail then MissOps(t.ops, o, made, next, body) else t.ops
    ensures My(end.events) ==
            if first == Fail then MissCalls(My(t.events), path, made, next, body) else My(t.events)
    ensures first != Fail ==> next == first && body == hit && left == theirs && unchanged(cache)
    ensures hit != null ==> body.data == old(hit.data)
    ensures first == Fail && body == null ==>
              next == if made.Make? && (made.created == null || next == Fail) then Fail else Stuck
    ensures body != null ==> next != Fail && Denotes(cache.order, body) && body.key == path
    ensures first == Fail && body != null && next != Stuck ==>
              next == if |body.data| == fileSize then Answer else FillFirst
    ensures first == Fail && (made.Wait? || made.created == null) ==> body == null
    ensures next == Stuck || (next == Fail && made.Make? && made.created != null) ==> cache.locked
    ensures forall b | b in cache.order :: b in old(cache.order) || fresh(b)
    ensures first == Fail && Alone(o) && old(!cache.locked) ==>
              && made.Make? && CreatedRight(status, made.created,
                                            old(Verdict(cache.Bounds(), cache.order, cache.handles, fileSize)),
                                            old(Unshadowed(cache.order, cache.handles)),
                                            made.created == null && cache.order == old(cache.order))
    ensures first == Fail && Alone(o) && old(!cache.locked && !Present(cache.order, path)) && status == Ok ==>
              && body == made.created && body != null && fresh(body) && body.size == fileSize && body.data == []
              && !cache.locked
              && next == if fileSize == 0 then Answer else FillFirst
  {
    next, body, status, left, made, end := first, hit, Ok, theirs, Wait, t;
    if first == Fail {
      next, body, status, left, made, end := ServeMiss(cache, path, fileSize, now, stamp, o, theirs, mine, t);
    }
  }

  /** The calls of a request until it knows what to do next. */
  function FileCalls(my: seq<Event>, path: CString, first: Next, made: Event, next: Next, body: CacheBuffer?):
    seq<Event>
    requires made.Wait? || made.Make?
  {
    if first == Fail then MissCalls(my + [Look(Mine, path, false)], path, made, next, body)
    else my + LookCalls(path, false, first)
  }

  /**
   The lookup of a GET request, hit or miss. A hit is answered from the buffer whatever `fileSize` is: the
   length that the head announces is that of the file now, the length of the body is that of the last fill.
   */
  method ServeFile(cache: CacheManager, path: CString, fileSize: nat, now: int, stamp: int, o: Others,
                   theirs: seq<CacheBuffer>, ghost mine: multiset<CacheBuffer>, ghost t: Trail)
    returns (first: Next, next: Next, body: CacheBuffer?, status: Status, left: seq<CacheBuffer>, ghost made: Event,
             ghost end: Trail)
    requires Reaches(cache, t, mine, theirs)
    modifies cache`usedMemory, cache`entryCount, cache`order, cache`history, cache`handles, cache`locked, cache.table
    modifies Elems(cache.order)`references, Elems(cache.order)`lastReference, Elems(cache.order)`data
    ensures Reaches(cache, end, With(mine, next, body), left) && end.start == t.start
    ensures first == if old(cache.locked) then Stuck else if old(Present(cache.order, path)) then Answer else Fail
    ensures if first == Fail then made == Wait || MadeFor(made, path, fileSize, o.gives) else made == Wait
    ensures end.ops == if first == Fail then MissOps(t.ops, o, made, next, body) else t.ops
    ensures My(end.events) == FileCalls(My(t.events), path, first, made, next, body)
    ensures first == Stuck ==> next == Stuck && body == null
    ensures first == Answer ==>
              && next == Answer && body == old(First(cache.order, path)) && cache.order == old(cache.order)
              && left == theirs && !cache.locked && body.data == old(First(cache.order, path).data)
    ensures body == null ==> next == Stuck || next == Fail
    ensures body != null ==> next != Fail && Denotes(cache.order, body) && body.key == path
    ensures first == Fail && body != null && next != Stuck ==>
              next == if |body.data| == fileSize then Answer else FillFirst
    ensures first == Fail && (made.Wait? || made.created == null) ==> body == null
    ensures next == Stuck || (next == Fail && made.Make? && made.created != null) ==> cache.locked
    ensures forall b | b in cache.order :: b in old(cache.order) || fresh(b)
    ensures first == Fail && Alone(o) ==>
              && made.Make? && CreatedRight(status, made.created,
                                            old(Verdict(cache.Bounds(), cache.order, cache.handles, fileSize)),
                                            old(Unshadowed(cache.order, cache.handles)),
                                            made.created == null && cache.order == old(cache.order))
    ensures first == Fail && Alone(o) && status == Ok ==>
              && body == made.created && body != null && fresh(body) && body.size == fileSize && body.data == []
              && !cache.locked
              && next == if fileSize == 0 then Answer else FillFirst
  {
    var hit;
    ghost var held;
    first, hit, held, end := TryFirst(cache, path, now, theirs, mine, t);
    next, body, status, left, made, end :=
      ServeMissIf(cache, first, hit, path, fileSize, now, stamp, o, theirs, mine, held, end);
  }
}
