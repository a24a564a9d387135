/**
 Runs of the cache as values: one request and all other threads call the cache in any order, and every handle
 belongs to the one or to the others.
 */
module CacheRuns {
  import opened CBytes
  import opened Collections
  import opened Association
  import opened EvictionPlan
  import opened CacheModel

  /** The buffers in the table, the handles that are out, and whether the manager mutex is held for good. */
  datatype World = World(order: seq<CacheBuffer>, mine: multiset<CacheBuffer>, theirs: multiset<CacheBuffer>,
                         locked: bool)

  datatype Caller = Mine | Theirs

  /** A call and what it met with; `Wait` is a call that can only wait, or nothing at all. */
  datatype Event =
    | Look(who: Caller, key: CString, write: bool)
    | Give(who: Caller, b: CacheBuffer)
    | Fill(who: Caller, b: CacheBuffer, data: seq<byte>)
    | Make(who: Caller, key: CString, size: nat, plan: seq<CacheBuffer>, releases: seq<seq<CacheBuffer>>,
           created: CacheBuffer?)
    | Wait

  /**
   What other threads do. A release and the end of a fill concern the handle at a position of the list of their
   handles, and a creation has such releases happen between its deletions.
   */
  datatype Operation =
    | Create(key: CString, size: nat, stamp: int, gives: seq<seq<nat>>)
    | Get(key: CString, now: int)
    | GetWrite(key: CString, now: int)
    | Release(k: nat)
    | FinishFill(k: nat, data: seq<byte>)

  // ---- Steps ----

  ghost function Take(w: World, who: Caller, b: CacheBuffer): World {
    if who == Mine then w.(mine := w.mine + multiset{b}) else w.(theirs := w.theirs + multiset{b})
  }

  ghost function Return(w: World, who: Caller, b: CacheBuffer): World {
    if who == Mine then w.(mine := w.mine - multiset{b}) else w.(theirs := w.theirs - multiset{b})
  }

  /** A lookup for writing that misses keeps the mutex. */
  ghost function Looked(w: World, who: Caller, key: CString, write: bool): World {
    if Present(w.order, key) then Take(w, who, First(w.order, key)) else w.(locked := write)
  }

  ghost function Made(l: Limits, w: World, e: Event): World
    requires e.Make?
  {
    var left := Creation(l, w.order, w.mine + w.theirs, e.size, e.plan, e.releases).1;
    w.(order := if e.created == null then left else left + [e.created], theirs := w.theirs - AllGiven(e.releases))
  }

  ghost function Apply(l: Limits, w: World, e: Event): World {
    match e
    case Look(who, key, write) => Looked(w, who, key, write)
    case Give(who, b) => Return(w, who, b)
    case Fill(who, b, _) => Return(w, who, b)
    case Make(_, _, _, _, _, _) => Made(l, w, e)
    case Wait => w
  }

  /** The plan lists the buffers without a handle, and there is a new buffer exactly when the answer is Ok. */
  ghost predicate LegalMake(l: Limits, w: World, e: Event)
    requires e.Make?
  {
    var out := w.mine + w.theirs;
    && !w.locked && AllGiven(e.releases) <= w.theirs
    && NoDup(e.plan) && Elems(e.plan) == IdleSet(w.order, out)
    && (e.created != null <==> Creation(l, w.order, out, e.size, e.plan, e.releases).0 == Ok)
    && (e.created != null ==> e.created !in w.order && e.created.key == e.key && e.created.size == e.size)
  }

  /** Nobody gets past a mutex that is held for good, and everybody gives back his own handles only. */
  ghost predicate Legal(l: Limits, w: World, e: Event) {
    match e
    case Look(_, _, _) => !w.locked
    case Give(who, b) => b in (if who == Mine then w.mine else w.theirs)
    case Fill(who, b, _) => b in (if who == Mine then w.mine else w.theirs)
    case Make(_, _, _, _, _, _) => LegalMake(l, w, e)
    case Wait => true
  }

  /** The event is what comes of another thread's operation. */
  ghost predicate Answers(op: Operation, w: World, e: Event) {
    match op
    case Create(key, size, _, gives) =>
      if w.locked then e == Wait
      else e.Make? && e.who == Theirs && e.key == key && e.size == size && Fits(e.releases, gives)
    case Get(key, _) => e == if w.locked then Wait else Look(Theirs, key, false)
    case GetWrite(key, _) => e == if w.locked then Wait else Look(Theirs, key, true)
    case Release(k) => if k < |w.theirs| then e.Give? && e.who == Theirs else e == Wait
    case FinishFill(k, data) =>
      if k < |w.theirs| then e.Fill? && e.who == Theirs && e.data == data else e == Wait
  }

  /** No more handles are given back than the operation says. */
  predicate Fits(releases: seq<seq<CacheBuffer>>, gives: seq<seq<nat>>) {
    |releases| == |gives| && forall i :: 0 <= i < |gives| ==> |releases[i]| <= |gives[i]|
  }

  predicate IsMine(e: Event) {
    !e.Wait? && e.who == Mine
  }

  // ---- Runs ----

  /** The events lead from `w` to `end`; those of other threads are what comes of `ops`, one by one. */
  ghost predicate Goes(l: Limits, ops: seq<Operation>, w: World, events: seq<Event>, end: World)
    decreases |events|
  {
    if events == [] then ops == [] && w == end
    else
      && Legal(l, w, events[0])
      && if IsMine(events[0]) then Goes(l, ops, Apply(l, w, events[0]), events[1..], end)
         else ops != [] && Answers(ops[0], w, events[0]) && Goes(l, ops[1..], Apply(l, w, events[0]), events[1..], end)
  }

  /** The events of the request. */
  ghost function My(events: seq<Event>): seq<Event> {
    if events == [] then [] else (if IsMine(events[0]) then [events[0]] else []) + My(events[1..])
  }

  /** What a buffer holds after the events. */
  ghost function Holds(b: CacheBuffer, data: seq<byte>, events: seq<Event>): seq<byte>
    decreases |events|
  {
    if events == [] then data else Holds(b, Filled(events[0], b, data), events[1..])
  }

  function Filled(e: Event, b: CacheBuffer, data: seq<byte>): seq<byte> {
    if e.Fill? && e.b == b then e.data else data
  }

  lemma MyStep(l: Limits, w: World, e: Event)
    requires Legal(l, w, e) && IsMine(e)
    ensures Goes(l, [], w, [e], Apply(l, w, e)) && My([e]) == [e]
  {
    assert [e][1..] == [];
  }

  lemma TheirStep(l: Limits, op: Operation, w: World, e: Event)
    requires Legal(l, w, e) && Answers(op, w, e) && !IsMine(e)
    ensures Goes(l, [op], w, [e], Apply(l, w, e)) && My([e]) == []
  {
    assert [e][1..] == [] && [op][1..] == [];
  }

  lemma FirstOfBoth<T>(s: seq<T>, t: seq<T>)
    requires s != []
    ensures s + t != [] && (s + t)[0] == s[0] && (s + t)[1..] == s[1..] + t
  {}

  lemma {:induction false} GoesOn(l: Limits, ops: seq<Operation>, w: World, events: seq<Event>, mid: World,
                                  ops': seq<Operation>, events': seq<Event>, end: World)
    requires Goes(l, ops, w, events, mid) && Goes(l, ops', mid, events', end)
    ensures Goes(l, ops + ops', w, events + events', end)
    decreases |events|
  {
    if events == [] {
      assert ops + ops' == ops' && events + events' == events';
    } else {
      var next := Apply(l, w, events[0]);
      FirstOfBoth(events, events');
      if IsMine(events[0]) {
        GoesOn(l, ops, next, events[1..], mid, ops', events', end);
      } else {
        FirstOfBoth(ops, ops');
        GoesOn(l, ops[1..], next, events[1..], mid, ops', events', end);
      }
    }
  }

  lemma {:induction false} MyGoesOn(events: seq<Event>, events': seq<Event>)
    ensures My(events + events') == My(events) + My(events')
  {
    if events == [] {
      assert events + events' == events';
    } else {
      FirstOfBoth(events, events');
      MyGoesOn(events[1..], events');
    }
  }

  lemma {:induction false} HoldsGoesOn(b: CacheBuffer, data: seq<byte>, events: seq<Event>, events': seq<Event>)
    ensures Holds(b, data, events + events') == Holds(b, Holds(b, data, events), events')
    decreases |events|
  {
    if events == [] {
      assert events + events' == events';
    } else {
      FirstOfBoth(events, events');
      HoldsGoesOn(b, Filled(events[0], b, data), events[1..], events');
    }
  }

  // ---- Safety over every run ----

  /** Nothing is in the table twice, and every handle is on a buffer in it. */
  ghost predicate Safe(w: World) {
    NoDup(w.order) && forall b | b in w.mine + w.theirs :: b in w.order
  }

  lemma MakeFacts(l: Limits, w: World, e: Event)
    requires Safe(w) && e.Make? && LegalMake(l, w, e)
    ensures var left := Creation(l, w.order, w.mine + w.theirs, e.size, e.plan, e.releases).1;
            && Thinned(left, w.order) && NoDup(left)
            && (forall b | b in left :: b in w.order)
            && (forall b | b in w.mine + (w.theirs - AllGiven(e.releases)) :: b in left)
    ensures Safe(Made(l, w, e))
  {
    var out := w.mine + w.theirs;
    var left := Creation(l, w.order, out, e.size, e.plan, e.releases).1;
    CreationFacts(l, w.order, out, e.size, e.plan, e.releases);
    forall b | b in left
      ensures b in w.order
    {
      assert b in Elems(left);
    }
    assert out - AllGiven(e.releases) == w.mine + (w.theirs - AllGiven(e.releases));
    forall b | b in w.mine + (w.theirs - AllGiven(e.releases))
      ensures b in left
    {
      assert b in out;
    }
    if e.created != null {
      assert e.created !in left;
      ElemsSnoc(left, e.created);
    }
  }

  /**
   Handle safety: whoever calls what in which order, and whether or not keys repeat, no buffer goes while there is a
   handle on it.
   */
  lemma {:induction false} RunKeepsHandles(l: Limits, ops: seq<Operation>, w: World, events: seq<Event>, end: World)
    requires Goes(l, ops, w, events, end) && Safe(w)
    ensures Safe(end)
    decreases |events|
  {
    if events != [] {
      StepKeepsHandles(l, w, events[0]);
      RunKeepsHandles(l, if IsMine(events[0]) then ops else ops[1..], Apply(l, w, events[0]), events[1..], end);
    }
  }

  lemma StepKeepsHandles(l: Limits, w: World, e: Event)
    requires Legal(l, w, e) && Safe(w)
    ensures Safe(Apply(l, w, e))
  {
    if e.Make? {
      MakeFacts(l, w, e);
    } else if e.Look? && Present(w.order, e.key) {
      assert First(w.order, e.key) in w.order;
    }
  }

  /** What others do leaves the handles of the request alone. */
  lemma {:induction false} OthersLeaveMine(l: Limits, ops: seq<Operation>, w: World, events: seq<Event>, end: World)
    requires Goes(l, ops, w, events, end) && My(events) == []
    ensures end.mine == w.mine
    decreases |events|
  {
    if events != [] {
      assert !IsMine(events[0]);
      OthersLeaveMine(l, ops[1..], Apply(l, w, events[0]), events[1..], end);
    }
  }

  /** A mutex that a lookup for writing has kept is never given back, and nobody creates or finds anything any more. */
  lemma {:induction false} LockedForGood(l: Limits, ops: seq<Operation>, w: World, events: seq<Event>, end: World)
    requires Goes(l, ops, w, events, end) && w.locked
    ensures end.locked && end.order == w.order
    ensures forall e | e in events :: !e.Look? && !e.Make?
    decreases |events|
  {
    if events != [] {
      assert events == [events[0]] + events[1..];
      LockedForGood(l, if IsMine(events[0]) then ops else ops[1..], Apply(l, w, events[0]), events[1..], end);
    }
  }

  /** Without operations and calls nothing happens. */
  lemma {:induction false} NothingHappens(l: Limits, w: World, events: seq<Event>, end: World)
    requires Goes(l, [], w, events, end) && My(events) == []
    ensures events == [] && end == w
  {
  }

  /** When nobody else does anything, not even during a creation, the others keep their handles. */
  lemma {:induction false} AloneKeepsTheirs(l: Limits, w: World, events: seq<Event>, end: World)
    requires Goes(l, [], w, events, end)
    requires forall e | e in events && e.Make? :: e.releases == []
    ensures end.theirs == w.theirs && My(events) == events
    decreases |events|
  {
    if events != [] {
      var next := Apply(l, w, events[0]);
      assert events == [events[0]] + events[1..];
      assert events[0] in events;
      if events[0].Make? {
        assert AllGiven(events[0].releases) == multiset{};
      }
      assert next.theirs == w.theirs;
      AloneKeepsTheirs(l, next, events[1..], end);
    }
  }

  /** While the request has a handle on what its key leads to, the key leads there, whatever others do. */
  lemma {:induction false} HeldIsFound(l: Limits, ops: seq<Operation>, w: World, events: seq<Event>, end: World,
                                       b: CacheBuffer)
    requires Goes(l, ops, w, events, end) && My(events) == [] && Safe(w)
    requires b in w.mine && Denotes(w.order, b)
    ensures Denotes(end.order, b)
    decreases |events|
  {
    if events != [] {
      assert !IsMine(events[0]);
      StepKeepsHandles(l, w, events[0]);
      HeldStaysFirst(l, w, events[0], b);
      HeldIsFound(l, ops[1..], Apply(l, w, events[0]), events[1..], end, b);
    }
  }

  lemma HeldStaysFirst(l: Limits, w: World, e: Event, b: CacheBuffer)
    requires Legal(l, w, e) && !IsMine(e) && Safe(w) && b in w.mine && Denotes(w.order, b)
    ensures Denotes(Apply(l, w, e).order, b) && Apply(l, w, e).mine == w.mine
  {
    if e.Make? {
      var left := Creation(l, w.order, w.mine + w.theirs, e.size, e.plan, e.releases).1;
      MakeFacts(l, w, e);
      StillDenotes(left, w.order, b, e.created);
    }
  }

  lemma StillDenotes(left: seq<CacheBuffer>, was: seq<CacheBuffer>, b: CacheBuffer, created: CacheBuffer?)
    requires NoDup(was) && Thinned(left, was) && Denotes(was, b) && b in left
    ensures Denotes(if created == null then left else left + [created], b)
  {
    ThinnedKeepsFirst(left, was, b.key);
    if created != null {
      SnocPrefix(left, created);
    }
  }

  // ---- A buffer evicted before its creator has a handle on it ----

  lemma OnlyOne(b: CacheBuffer, key: CString)
    ensures Present([b], key) <==> b.key == key
    ensures b.key == key ==> First([b], key) == b && Delete([b], key) == []
    ensures NoDup([b]) && Memory([b]) == b.size
  {
    assert [b][..0] == [];
  }

  /** The first creation of the run below: there is room. */
  lemma RoomForOne(l: Limits, x: CacheBuffer)
    requires l.entries == 1 && x.size <= l.bufferSize && x.size <= l.memory
    ensures Creation(l, [], multiset{}, x.size, [], []) == (Ok, [])
  {
  }

  /** The second one, which evicts the only entry. */
  lemma OneForAnother(l: Limits, x: CacheBuffer, y: CacheBuffer)
    requires l.entries == 1 && y.size <= l.bufferSize && x.size + y.size <= l.memory
    ensures Creation(l, [x], multiset{}, y.size, [x], []) == (Ok, [])
  {
    OnlyOne(x, x.key);
    var now := multiset{} - Bag(GivenAt([], 0));
    assert now == multiset{};
    assert Attempt([x], x.key, now) == [];
    assert EvictFrom([], now, [x], [], 0, 1) == ([], 1);
    assert Evict([x], multiset{}, [x], [], 1) == ([], 1);
  }

  /** The four steps of the run below. */
  lemma FourSteps(l: Limits, x: CacheBuffer, y: CacheBuffer, none: multiset<CacheBuffer>)
    requires l.entries == 1 && x.size <= l.bufferSize && y.size <= l.bufferSize && x.size + y.size <= l.memory
    requires x.key != y.key && none == multiset{}
    ensures var (looked, w) := (Look(Mine, x.key, false), World([], none, none, false));
            Legal(l, w, looked) && Apply(l, w, looked) == w
    ensures var (made, w) := (Make(Mine, x.key, x.size, [], [], x), World([], none, none, false));
            Legal(l, w, made) && Apply(l, w, made) == World([x], none, none, false)
    ensures var (other, w) := (Make(Theirs, y.key, y.size, [x], [], y), World([x], none, none, false));
            Legal(l, w, other) && Apply(l, w, other) == World([y], none, none, false)
    ensures var (missed, w) := (Look(Mine, x.key, true), World([y], none, none, false));
            Legal(l, w, missed) && Apply(l, w, missed) == World([y], none, none, true)
  {
    RoomForOne(l, x);
    OneForAnother(l, x, y);
    OnlyOne(x, x.key);
    OnlyOne(y, x.key);
    assert none + none == none && none - AllGiven([]) == none;
    assert Elems<CacheBuffer>([]) == IdleSet([], none) && Elems([x]) == IdleSet([x], none);
  }

  /**
   A run from the empty cache with room for one entry: another thread creates an entry after the request has created
   its own and before it looks its own up for writing. That lookup misses, and the mutex is held for good.
   */
  lemma EvictedBeforeHeld(l: Limits, x: CacheBuffer, y: CacheBuffer)
    requires l.entries == 1 && x.size <= l.bufferSize && y.size <= l.bufferSize && x.size + y.size <= l.memory
    requires x.key != y.key
    ensures Goes(l, [Create(y.key, y.size, 0, [])], World([], multiset{}, multiset{}, false),
                 [Look(Mine, x.key, false), Make(Mine, x.key, x.size, [], [], x),
                  Make(Theirs, y.key, y.size, [x], [], y), Look(Mine, x.key, true)],
                 World([y], multiset{}, multiset{}, true))
  {
    var none: multiset<CacheBuffer> := multiset{};
    var ops := [Create(y.key, y.size, 0, [])];
    var looked, made, other, missed :=
      Look(Mine, x.key, false), Make(Mine, x.key, x.size, [], [], x),
      Make(Theirs, y.key, y.size, [x], [], y), Look(Mine, x.key, true);
    var w, one := World([], none, none, false), World([x], none, none, false);
    var two, end := World([y], none, none, false), World([y], none, none, true);
    FourSteps(l, x, y, none);
    MyStep(l, w, looked);
    MyStep(l, w, made);
    TheirStep(l, ops[0], one, other);
    MyStep(l, two, missed);
    GoesOn(l, ops, one, [other], two, [], [missed], end);
    GoesOn(l, [], w, [made], one, ops + [], [other] + [missed], end);
    GoesOn(l, [], w, [looked], w, [] + (ops + []), [made] + ([other] + [missed]), end);
    assert [looked] + ([made] + ([other] + [missed])) == [looked, made, other, missed];
    assert [] + ([] + (ops + [])) == ops;
  }
}
