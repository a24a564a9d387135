/** Other threads at work on the cache: any number of their calls, as code, is a run of CacheRuns. */
module CacheThreads {
  import opened CBytes
  import opened Collections
  import opened Association
  import opened EvictionPlan
  import opened CacheModel
  import opened CacheRuns
  import opened Cache

  // ---- The list of their handles ----

  function Without(s: seq<CacheBuffer>, k: nat): seq<CacheBuffer>
    requires k < |s|
  {
    s[..k] + s[k + 1..]
  }

  lemma BagSnoc(s: seq<CacheBuffer>, b: CacheBuffer)
    ensures Bag(s + [b]) == Bag(s) + multiset{b}
  {
    SnocPrefix(s, b);
  }

  lemma {:induction false} BagWithout(s: seq<CacheBuffer>, k: nat)
    requires k < |s|
    ensures Bag(s) == Bag(Without(s, k)) + multiset{s[k]}
  {
    var p, b := s[..|s| - 1], s[|s| - 1];
    if k == |p| {
      assert Without(s, k) == p;
    } else {
      BagWithout(p, k);
      assert Without(s, k) == Without(p, k) + [b];
      BagSnoc(Without(p, k), b);
    }
  }

  lemma {:induction false} BagCount(s: seq<CacheBuffer>)
    ensures |Bag(s)| == |s|
  {
    if s != [] {
      BagCount(s[..|s| - 1]);
    }
  }

  /** The handles at the positions `ks`, taken out one after the other, and those that are left. */
  function Pick(s: seq<CacheBuffer>, ks: seq<nat>): (seq<CacheBuffer>, seq<CacheBuffer>) {
    if ks == [] then ([], s)
    else
      var (picked, rest) := Pick(s, ks[..|ks| - 1]);
      var k := ks[|ks| - 1];
      if k < |rest| then (picked + [rest[k]], Without(rest, k)) else (picked, rest)
  }

  lemma Move(all: multiset<CacheBuffer>, picked: multiset<CacheBuffer>, rest: multiset<CacheBuffer>,
             left: multiset<CacheBuffer>, b: CacheBuffer)
    requires all == picked + rest && rest == left + multiset{b}
    ensures all == (picked + multiset{b}) + left
  {
  }

  lemma Associative(a: multiset<CacheBuffer>, b: multiset<CacheBuffer>, c: multiset<CacheBuffer>)
    ensures a + (b + c) == (a + b) + c
  {
  }

  lemma {:induction false} PickIsSplit(s: seq<CacheBuffer>, ks: seq<nat>)
    ensures Bag(s) == Bag(Pick(s, ks).0) + Bag(Pick(s, ks).1)
  {
    if ks != [] {
      var (picked, rest) := Pick(s, ks[..|ks| - 1]);
      var k := ks[|ks| - 1];
      PickIsSplit(s, ks[..|ks| - 1]);
      if k < |rest| {
        BagWithout(rest, k);
        BagSnoc(picked, rest[k]);
        Move(Bag(s), Bag(picked), Bag(rest), Bag(Without(rest, k)), rest[k]);
      }
    }
  }

  function PickAll(s: seq<CacheBuffer>, gives: seq<seq<nat>>): (seq<seq<CacheBuffer>>, seq<CacheBuffer>) {
    if gives == [] then ([], s)
    else
      var (releases, rest) := PickAll(s, gives[..|gives| - 1]);
      var (picked, left) := Pick(rest, gives[|gives| - 1]);
      (releases + [picked], left)
  }

  lemma {:induction false} PickFits(s: seq<CacheBuffer>, ks: seq<nat>)
    ensures |Pick(s, ks).0| <= |ks|
  {
    if ks != [] {
      PickFits(s, ks[..|ks| - 1]);
    }
  }

  lemma {:induction false} PickAllFits(s: seq<CacheBuffer>, gives: seq<seq<nat>>)
    ensures Fits(PickAll(s, gives).0, gives)
  {
    if gives != [] {
      var p := gives[..|gives| - 1];
      PickAllFits(s, p);
      PickFits(PickAll(s, p).1, gives[|gives| - 1]);
      assert forall i :: 0 <= i < |p| ==> p[i] == gives[i];
    }
  }

  lemma {:induction false} GivenSnoc(releases: seq<seq<CacheBuffer>>, more: seq<CacheBuffer>, i: nat)
    requires i <= |releases|
    ensures GivenFrom(releases + [more], i) == GivenFrom(releases, i) + Bag(more)
    decreases |releases| - i
  {
    if i < |releases| {
      GivenSnoc(releases, more, i + 1);
      Associative(Bag(releases[i]), GivenFrom(releases, i + 1), Bag(more));
    } else {
      assert GivenFrom(releases + [more], i + 1) == multiset{};
    }
  }

  lemma {:induction false} PickAllIsSplit(s: seq<CacheBuffer>, gives: seq<seq<nat>>)
    ensures Bag(s) == AllGiven(PickAll(s, gives).0) + Bag(PickAll(s, gives).1)
  {
    if gives != [] {
      var (releases, rest) := PickAll(s, gives[..|gives| - 1]);
      PickAllIsSplit(s, gives[..|gives| - 1]);
      var (picked, left) := Pick(rest, gives[|gives| - 1]);
      PickIsSplit(rest, gives[|gives| - 1]);
      GivenSnoc(releases, picked, 0);
      Associative(AllGiven(releases), Bag(picked), Bag(left));
    }
  }

  // ---- One call ----

  /** The cache as a value, when `mine` and `theirs` are the handles that are out. */
  ghost function Now(cache: CacheManager, mine: multiset<CacheBuffer>, theirs: seq<CacheBuffer>): World
    reads cache`order, cache`locked
  {
    World(cache.order, mine, Bag(theirs), cache.locked)
  }

  /** All handles belong to the request or to the others. */
  ghost predicate Dealt(cache: CacheManager, mine: multiset<CacheBuffer>, theirs: seq<CacheBuffer>)
    reads cache, cache.table, cache.order`references
  {
    cache.Valid() && cache.handles == mine + Bag(theirs)
  }

  /** `e` is what comes of `op`, and leads from `w` to `end`. */
  ghost predicate Steps(l: Limits, op: Operation, w: World, e: Event, end: World) {
    Legal(l, w, e) && Answers(op, w, e) && !IsMine(e) && end == Apply(l, w, e)
  }

  lemma WaitStep(l: Limits, op: Operation, w: World)
    requires match op
             case Release(k) => k >= |w.theirs|
             case FinishFill(k, _) => k >= |w.theirs|
             case _ => w.locked
    ensures Steps(l, op, w, Wait, w)
  {
  }

  lemma LookStep(l: Limits, w: World, key: CString, now: int, write: bool, end: World)
    requires !w.locked && end == Looked(w, Theirs, key, write)
    ensures Steps(l, if write then GetWrite(key, now) else Get(key, now), w, Look(Theirs, key, write), end)
  {
  }

  /** A handle of the others goes; the event says why. */
  lemma ReturnStep(l: Limits, op: Operation, w: World, e: Event, b: CacheBuffer, left: multiset<CacheBuffer>)
    requires w.theirs == left + multiset{b} && (e == Give(Theirs, b) || (e.Fill? && e.who == Theirs && e.b == b))
    requires Answers(op, w, e)
    ensures Steps(l, op, w, e, w.(theirs := left))
  {
    assert w.theirs - multiset{b} == left;
  }

  lemma OneLess(out: multiset<CacheBuffer>, mine: multiset<CacheBuffer>, theirs: multiset<CacheBuffer>,
                left: multiset<CacheBuffer>, b: CacheBuffer, out': multiset<CacheBuffer>)
    requires out == mine + theirs && theirs == left + multiset{b} && out == out' + multiset{b}
    ensures out' == mine + left
  {
    assert out' == out - multiset{b} && mine + left == out - multiset{b};
  }

  lemma OneMore(out: multiset<CacheBuffer>, mine: multiset<CacheBuffer>, theirs: multiset<CacheBuffer>, b: CacheBuffer)
    requires out == mine + theirs
    ensures out + multiset{b} == mine + (theirs + multiset{b}) == (mine + multiset{b}) + theirs
  {
  }

  method TheirLookupFree(cache: CacheManager, key: CString, now: int, theirs: seq<CacheBuffer>,
                         ghost mine: multiset<CacheBuffer>)
    returns (left: seq<CacheBuffer>)
    requires Dealt(cache, mine, theirs) && !cache.locked
    modifies cache`handles, cache`locked, Elems(cache.order)`references, Elems(cache.order)`lastReference
    ensures Dealt(cache, mine, left)
    ensures Now(cache, mine, left) == Looked(old(Now(cache, mine, theirs)), Theirs, key, false)
  {
    ghost var out := cache.handles;
    left := theirs;
    var r := cache.GetBuffer(key, now);
    if r != null {
      left := theirs + [r];
      BagSnoc(theirs, r);
      OneMore(out, mine, Bag(theirs), r);
    }
  }

  method TheirLookup(cache: CacheManager, key: CString, now: int, theirs: seq<CacheBuffer>,
                     ghost mine: multiset<CacheBuffer>)
    returns (left: seq<CacheBuffer>, ghost e: Event)
    requires Dealt(cache, mine, theirs)
    modifies cache`handles, cache`locked, Elems(cache.order)`references, Elems(cache.order)`lastReference
    ensures Dealt(cache, mine, left) && cache.order == old(cache.order)
    ensures !e.Fill?
    ensures Steps(cache.Bounds(), Get(key, now), old(Now(cache, mine, theirs)), e, Now(cache, mine, left))
  {
    ghost var w := Now(cache, mine, theirs);
    left, e := theirs, Wait;
    if cache.locked {
      WaitStep(cache.Bounds(), Get(key, now), w);
    } else {
      left := TheirLookupFree(cache, key, now, theirs, mine);
      e := Look(Theirs, key, false);
      LookStep(cache.Bounds(), w, key, now, false, Now(cache, mine, left));
    }
  }

  method TheirWriteLookupFree(cache: CacheManager, key: CString, now: int, theirs: seq<CacheBuffer>,
                              ghost mine: multiset<CacheBuffer>)
    returns (left: seq<CacheBuffer>)
    requires Dealt(cache, mine, theirs) && !cache.locked
    modifies cache`handles, cache`locked, Elems(cache.order)`references, Elems(cache.order)`lastReference
    ensures Dealt(cache, mine, left)
    ensures Now(cache, mine, left) == Looked(old(Now(cache, mine, theirs)), Theirs, key, true)
  {
    ghost var out := cache.handles;
    left := theirs;
    var r := cache.GetWriteBuffer(key, now);
    if r != null {
      left := theirs + [r];
      BagSnoc(theirs, r);
      OneMore(out, mine, Bag(theirs), r);
    }
  }

  method TheirWriteLookup(cache: CacheManager, key: CString, now: int, theirs: seq<CacheBuffer>,
                          ghost mine: multiset<CacheBuffer>)
    returns (left: seq<CacheBuffer>, ghost e: Event)
    requires Dealt(cache, mine, theirs)
    modifies cache`handles, cache`locked, Elems(cache.order)`references, Elems(cache.order)`lastReference
    ensures Dealt(cache, mine, left) && cache.order == old(cache.order)
    ensures !e.Fill?
    ensures Steps(cache.Bounds(), GetWrite(key, now), old(Now(cache, mine, theirs)), e, Now(cache, mine, left))
  {
    ghost var w := Now(cache, mine, theirs);
    left, e := theirs, Wait;
    if cache.locked {
      WaitStep(cache.Bounds(), GetWrite(key, now), w);
    } else {
      left := TheirWriteLookupFree(cache, key, now, theirs, mine);
      e := Look(Theirs, key, true);
      LookStep(cache.Bounds(), w, key, now, true, Now(cache, mine, left));
    }
  }

  method TheirRelease(cache: CacheManager, k: nat, theirs: seq<CacheBuffer>, ghost mine: multiset<CacheBuffer>)
    returns (left: seq<CacheBuffer>, ghost e: Event)
    requires Dealt(cache, mine, theirs)
    modifies cache`handles, Elems(cache.order)`references
    ensures Dealt(cache, mine, left) && cache.order == old(cache.order)
    ensures !e.Fill?
    ensures Steps(cache.Bounds(), Release(k), old(Now(cache, mine, theirs)), e, Now(cache, mine, left))
  {
    ghost var w := Now(cache, mine, theirs);
    BagCount(theirs);
    if k < |theirs| {
      left, e := Without(theirs, k), Give(Theirs, theirs[k]);
      BagWithout(theirs, k);
      assert theirs[k] in cache.handles;
      ReturnHandle(cache, theirs[k], theirs, left, k, mine);
      ReturnStep(cache.Bounds(), Release(k), w, e, theirs[k], Bag(left));
    } else {
      left, e := theirs, Wait;
      WaitStep(cache.Bounds(), Release(k), w);
    }
  }

  method ReturnHandle(cache: CacheManager, b: CacheBuffer, theirs: seq<CacheBuffer>, left: seq<CacheBuffer>, k: nat,
                      ghost mine: multiset<CacheBuffer>)
    requires Dealt(cache, mine, theirs) && k < |theirs| && b == theirs[k] && left == Without(theirs, k)
    modifies cache`handles, b`references
    ensures Dealt(cache, mine, left) && Bag(theirs) == Bag(left) + multiset{b}
  {
    ghost var out := cache.handles;
    BagWithout(theirs, k);
    assert b in out;
    cache.ReleaseBuffer(b);
    OneLess(out, mine, Bag(theirs), Bag(left), b, cache.handles);
  }

  method FillHandle(cache: CacheManager, b: CacheBuffer, data: seq<byte>, theirs: seq<CacheBuffer>,
                    left: seq<CacheBuffer>, k: nat, ghost mine: multiset<CacheBuffer>)
    requires Dealt(cache, mine, theirs) && k < |theirs| && b == theirs[k] && left == Without(theirs, k)
    modifies cache`handles, b`references, b`data
    ensures Dealt(cache, mine, left) && Bag(theirs) == Bag(left) + multiset{b} && b.data == data
  {
    b.data := data;
    ReturnHandle(cache, b, theirs, left, k, mine);
  }

  /** The callback of a successful read of another request, which gives back the handle at position `k`. */
  method FillAt(cache: CacheManager, k: nat, b: CacheBuffer, data: seq<byte>, theirs: seq<CacheBuffer>,
                ghost mine: multiset<CacheBuffer>)
    returns (left: seq<CacheBuffer>, ghost e: Event)
    requires Dealt(cache, mine, theirs) && k < |theirs| && b == theirs[k]
    modifies cache`handles, b`references, b`data
    ensures Dealt(cache, mine, left) && e == Fill(Theirs, b, data) && b.data == data
    ensures Steps(cache.Bounds(), FinishFill(k, data), old(Now(cache, mine, theirs)), e, Now(cache, mine, left))
  {
    ghost var w := Now(cache, mine, theirs);
    BagCount(theirs);
    left, e := Without(theirs, k), Fill(Theirs, b, data);
    FillHandle(cache, b, data, theirs, left, k, mine);
    ReturnStep(cache.Bounds(), FinishFill(k, data), w, e, b, Bag(left));
  }

  method TheirFill(cache: CacheManager, k: nat, data: seq<byte>, theirs: seq<CacheBuffer>,
                   ghost mine: multiset<CacheBuffer>)
    returns (left: seq<CacheBuffer>, ghost e: Event)
    requires Dealt(cache, mine, theirs)
    modifies cache`handles, Elems(cache.order)`references, Elems(cache.order)`data
    ensures Dealt(cache, mine, left) && cache.order == old(cache.order)
    ensures Steps(cache.Bounds(), FinishFill(k, data), old(Now(cache, mine, theirs)), e, Now(cache, mine, left))
    ensures forall b | b in old(cache.order) :: b.data == Filled(e, b, old(b.data))
  {
    BagCount(theirs);
    if k < |theirs| {
      BagWithout(theirs, k);
      assert theirs[k] in cache.handles;
      left, e := FillAt(cache, k, theirs[k], data, theirs, mine);
    } else {
      left, e := theirs, Wait;
      WaitStep(cache.Bounds(), FinishFill(k, data), Now(cache, mine, theirs));
    }
  }

  // ---- A creation ----

  lemma Regroup(mine: multiset<CacheBuffer>, theirs: multiset<CacheBuffer>, given: multiset<CacheBuffer>,
                left: multiset<CacheBuffer>)
    requires theirs == given + left
    ensures mine + theirs == (mine + left) + given && theirs - given == left
  {
  }

  /** What a creation is as an event, when `left` are the handles that the others keep. */
  lemma MakeEvent(l: Limits, w: World, e: Event, left: multiset<CacheBuffer>, kept: seq<CacheBuffer>)
    requires e.Make? && !w.locked && w.theirs == AllGiven(e.releases) + left
    requires IsPlan(e.plan, w.order, w.mine + w.theirs)
    requires var (r, rest) := Creation(l, w.order, w.mine + w.theirs, e.size, e.plan, e.releases);
             (e.created != null <==> r == Ok) && kept == rest
    requires e.created != null ==> e.created !in w.order && e.created.key == e.key && e.created.size == e.size
    ensures Legal(l, w, e)
    ensures Apply(l, w, e) == World(if e.created == null then kept else kept + [e.created], w.mine, left, false)
  {
    assert w.theirs - AllGiven(e.releases) == left;
    assert Elems(e.plan) == IdleSet(w.order, w.mine + w.theirs);
  }

  method TheirCreate(cache: CacheManager, key: CString, size: nat, stamp: int, gives: seq<seq<nat>>,
                     theirs: seq<CacheBuffer>, ghost mine: multiset<CacheBuffer>)
    returns (left: seq<CacheBuffer>, ghost e: Event)
    requires Dealt(cache, mine, theirs)
    modifies cache`usedMemory, cache`entryCount, cache`order, cache`history, cache`handles, cache.table
    modifies Elems(cache.order)`references
    ensures Dealt(cache, mine, left) && old(cache.history) <= cache.history
    ensures !e.Fill?
    ensures forall b | b in cache.order :: b in old(cache.order) || fresh(b)
    ensures Steps(cache.Bounds(), Create(key, size, stamp, gives), old(Now(cache, mine, theirs)), e,
                  Now(cache, mine, left))
  {
    ghost var w := Now(cache, mine, theirs);
    left, e := theirs, Wait;
    if cache.locked {
      WaitStep(cache.Bounds(), Create(key, size, stamp, gives), w);
    } else {
      var status, created;
      left, status, created, e := MakeBuffer(cache, Theirs, key, size, stamp, gives, theirs, mine);
    }
  }

  /** A created buffer is what its key leads to, when nothing else had that key. */
  lemma CreatedIsFirst(kept: seq<CacheBuffer>, was: seq<CacheBuffer>, created: CacheBuffer, key: CString)
    requires Elems(kept) <= Elems(was) && !Present(was, key) && created.key == key
    ensures Denotes(kept + [created], created)
  {
    var s := kept + [created];
    forall i | 0 <= i < |kept|
      ensures s[i].key != key
    {
      assert kept[i] in Elems(kept);
    }
    assert s[|kept|] == created;
  }

  /** A creation by anybody, during which the others give back the handles at the positions `gives`. */
  method MakeBuffer(cache: CacheManager, who: Caller, key: CString, size: nat, stamp: int, gives: seq<seq<nat>>,
                    theirs: seq<CacheBuffer>, ghost mine: multiset<CacheBuffer>)
    returns (left: seq<CacheBuffer>, r: Status, created: CacheBuffer?, ghost e: Event)
    requires Dealt(cache, mine, theirs) && !cache.locked
    modifies cache`usedMemory, cache`entryCount, cache`order, cache`history, cache`handles, cache.table
    modifies Elems(cache.order)`references
    ensures Dealt(cache, mine, left) && !cache.locked && old(cache.history) <= cache.history
    ensures forall b | b in cache.order :: b in old(cache.order) || (b == created && fresh(b))
    ensures e.Make? && e.who == who && e.key == key && e.size == size && e.created == created
    ensures Fits(e.releases, gives)
    ensures Legal(cache.Bounds(), old(Now(cache, mine, theirs)), e)
    ensures Now(cache, mine, left) == Apply(cache.Bounds(), old(Now(cache, mine, theirs)), e)
    ensures r == Ok <==> created != null
    ensures created != null ==> fresh(created) && created.data == [] && created in cache.order
    ensures created != null && old(!Present(cache.order, key)) ==> Denotes(cache.order, created)
    ensures created == null && old(Unshadowed(cache.order, cache.handles) ||
                                   Verdict(cache.Bounds(), cache.order, cache.handles, size) != Ok) ==>
              cache.order == old(cache.order)
    ensures var verdict := Verdict(cache.Bounds(), old(cache.order), old(cache.handles), size);
            verdict != Ok || Unshadowed(old(cache.order), old(cache.handles)) ==> r == verdict
  {
    ghost var w, was := Now(cache, mine, theirs), cache.order;
    PickAllIsSplit(theirs, gives);
    PickAllFits(theirs, gives);
    var (releases, rest) := PickAll(theirs, gives);
    left := rest;
    Regroup(mine, Bag(theirs), AllGiven(releases), Bag(left));
    ghost var kept, victims, plan;
    r, created, kept, victims, plan := cache.CreateBuffer(key, size, stamp, releases, mine + Bag(left));
    e := Make(who, key, size, plan, releases, created);
    MakeEvent(cache.Bounds(), w, e, Bag(left), kept);
    forall b | b in kept
      ensures b in was
    {
      assert b in Elems(kept);
    }
    if created != null && !Present(was, key) {
      CreatedIsFirst(kept, was, created, key);
    }
  }

  // ---- Any number of calls ----

  /** One operation of another thread. */
  method Perform(cache: CacheManager, op: Operation, theirs: seq<CacheBuffer>, ghost mine: multiset<CacheBuffer>)
    returns (left: seq<CacheBuffer>, ghost e: Event)
    requires Dealt(cache, mine, theirs)
    modifies cache`usedMemory, cache`entryCount, cache`order, cache`history, cache`handles, cache`locked, cache.table
    modifies Elems(cache.order)`references, Elems(cache.order)`lastReference, Elems(cache.order)`data
    ensures Dealt(cache, mine, left) && old(cache.history) <= cache.history
    ensures Steps(cache.Bounds(), op, old(Now(cache, mine, theirs)), e, Now(cache, mine, left))
    ensures forall b | b in cache.order :: b in old(cache.order) || fresh(b)
    ensures forall b | b in old(cache.order) :: b.data == Filled(e, b, old(b.data))
  {
    match op {
      case Create(key, size, stamp, gives) =>
        left, e := TheirCreate(cache, key, size, stamp, gives, theirs, mine);
      case FinishFill(k, data) =>
        left, e := TheirFill(cache, k, data, theirs, mine);
      case _ =>
        left, e := PerformOnHandles(cache, op, theirs, mine);
    }
  }

  /** An operation that changes handles only. */
  method PerformOnHandles(cache: CacheManager, op: Operation, theirs: seq<CacheBuffer>,
                          ghost mine: multiset<CacheBuffer>)
    returns (left: seq<CacheBuffer>, ghost e: Event)
    requires Dealt(cache, mine, theirs) && !op.Create? && !op.FinishFill?
    modifies cache`handles, cache`locked, Elems(cache.order)`references, Elems(cache.order)`lastReference
    ensures Dealt(cache, mine, left) && !e.Fill?
    ensures Steps(cache.Bounds(), op, old(Now(cache, mine, theirs)), e, Now(cache, mine, left))
  {
    match op {
      case Get(key, now) =>
        left, e := TheirLookup(cache, key, now, theirs, mine);
      case GetWrite(key, now) =>
        left, e := TheirWriteLookup(cache, key, now, theirs, mine);
      case Release(k) =>
        left, e := TheirRelease(cache, k, theirs, mine);
    }
  }

  /**
   Every sequence of calls by other threads, as code, is a run of the model: what is in the table, who has which
   handles and whether the mutex is held afterwards is what the events say, and the events are what comes of the
   operations. A buffer on which the request keeps a handle stays in the table with its references counted.
   */
  method Interleave(cache: CacheManager, ops: seq<Operation>, theirs: seq<CacheBuffer>,
                    ghost mine: multiset<CacheBuffer>)
    returns (left: seq<CacheBuffer>, ghost events: seq<Event>)
    requires Dealt(cache, mine, theirs)
    modifies cache`usedMemory, cache`entryCount, cache`order, cache`history, cache`handles, cache`locked, cache.table
    modifies Elems(cache.order)`references, Elems(cache.order)`lastReference, Elems(cache.order)`data
    ensures Dealt(cache, mine, left) && old(cache.history) <= cache.history
    ensures Goes(cache.Bounds(), ops, old(Now(cache, mine, theirs)), events, Now(cache, mine, left))
    ensures My(events) == []
    ensures forall b | b in mine :: b in cache.order && b.references >= mine[b]
    ensures forall b | b in cache.order :: b in old(cache.order) || fresh(b)
    ensures forall b | b in cache.order && b in old(cache.order) :: b.data == Holds(b, old(b.data), events)
    decreases |ops|
  {
    ghost var w := Now(cache, mine, theirs);
    left, events := theirs, [];
    if ops != [] {
      ghost var e, more;
      left, e := Perform(cache, ops[0], theirs, mine);
      left, more := Interleave(cache, ops[1..], left, mine);
      events := [e] + more;
      assert events[1..] == more;
    }
    MineStays(cache, mine, left);
  }

  lemma MineStays(cache: CacheManager, mine: multiset<CacheBuffer>, theirs: seq<CacheBuffer>)
    requires Dealt(cache, mine, theirs)
    ensures forall b | b in mine :: b in cache.order && b.references >= mine[b]
  {
    forall b | b in mine
      ensures b in cache.order && b.references >= mine[b]
    {
      assert b in cache.handles;
    }
  }
}
