/**
 The cache of src/cache/cache.c as values: which buffers are in the table, oldest creation first, and which
 handles are out. An eviction is run key by key while other threads give handles back, on every cache, whether
 or not keys repeat.
 */
module CacheModel {
  import opened CBytes
  import opened Collections
  import opened Association
  import opened EvictionPlan

  datatype Status =
    | Ok
    | BufferSizeLimit
    | MemoryLimitExceeded
    | BufferCountExceeded
    | KeyNotFound
    | BuffersUsed
    | BufferReferenced

  datatype Limits = Limits(memory: nat, entries: nat, bufferSize: nat)

  // ---- Handles given back during an eviction ----

  /** A list of handles, one for each occurrence. */
  function Bag(s: seq<CacheBuffer>): multiset<CacheBuffer> {
    if s == [] then multiset{} else Bag(s[..|s| - 1]) + multiset{s[|s| - 1]}
  }

  /**
   What other threads give back during an eviction: `releases[i]` before its deletion number `i`, and what is left
   of the list after its last one.
   */
  function GivenAt(releases: seq<seq<CacheBuffer>>, i: nat): seq<CacheBuffer> {
    if i < |releases| then releases[i] else []
  }

  function GivenFrom(releases: seq<seq<CacheBuffer>>, i: nat): multiset<CacheBuffer>
    decreases |releases| - i
  {
    if i >= |releases| then multiset{} else Bag(releases[i]) + GivenFrom(releases, i + 1)
  }

  function AllGiven(releases: seq<seq<CacheBuffer>>): multiset<CacheBuffer> {
    GivenFrom(releases, 0)
  }

  predicate NothingGiven(releases: seq<seq<CacheBuffer>>) {
    forall i :: 0 <= i < |releases| ==> releases[i] == []
  }

  lemma GivenNext(releases: seq<seq<CacheBuffer>>, i: nat)
    ensures GivenFrom(releases, i) == Bag(GivenAt(releases, i)) + GivenFrom(releases, i + 1)
  {}

  // ---- An eviction, turn by turn ----

  /**
   The deletion loops of `_freeLRUBuffersCount` and `_freeLRUBuffersMemory` from turn `i` on: the keys of the plan
   are tried in order until `goal` buffers are gone. What is left of `s`, and at which turn the loop stops.
   */
  ghost function EvictFrom(s: seq<CacheBuffer>, out: multiset<CacheBuffer>, plan: seq<CacheBuffer>,
                           releases: seq<seq<CacheBuffer>>, goal: nat, i: nat): (seq<CacheBuffer>, nat)
    requires i <= |plan|
    decreases |plan| - i
  {
    if i == |plan| || goal == 0 then (s, i)
    else
      var now := out - Bag(GivenAt(releases, i));
      var t := Attempt(s, plan[i].key, now);
      EvictFrom(t, now, plan, releases, if |t| < |s| then goal - 1 else goal, i + 1)
  }

  ghost function Evict(s: seq<CacheBuffer>, out: multiset<CacheBuffer>, plan: seq<CacheBuffer>,
                       releases: seq<seq<CacheBuffer>>, goal: nat): (seq<CacheBuffer>, nat)
  {
    EvictFrom(s, out, plan, releases, goal, 0)
  }

  /** A turn takes away one buffer at most, which no handle is out on. */
  lemma TurnFacts(s: seq<CacheBuffer>, out: multiset<CacheBuffer>, key: CString)
    requires NoDup(s)
    ensures var t := Attempt(s, key, out);
            && NoDup(t) && Thinned(t, s) && Elems(t) <= Elems(s)
            && |s| == |t| + (if Present(s, key) && out[First(s, key)] == 0 then 1 else 0)
            && (forall b | b in s && b !in t :: out[b] == 0)
  {
    var t := Attempt(s, key, out);
    DeleteMembers(s, key);
    ThinnedDelete(s, key);
    ThinnedSelf(s);
    if Present(s, key) {
      DeleteAccounts(s, key);
    }
    forall b | b in s && b !in t
      ensures out[b] == 0
    {
      assert b in Elems(s) && b !in Elems(t);
    }
  }

  /** One turn: what the next one starts from. */
  lemma EvictTurn(s: seq<CacheBuffer>, out: multiset<CacheBuffer>, plan: seq<CacheBuffer>,
                  releases: seq<seq<CacheBuffer>>, goal: nat, i: nat)
    returns (t: seq<CacheBuffer>, now: multiset<CacheBuffer>, togo: nat)
    requires i < |plan| && goal > 0
    ensures now == out - Bag(GivenAt(releases, i)) && t == Attempt(s, plan[i].key, now)
    ensures togo == if |t| < |s| then goal - 1 else goal
    ensures EvictFrom(s, out, plan, releases, goal, i) == EvictFrom(t, now, plan, releases, togo, i + 1)
  {
    now := out - Bag(GivenAt(releases, i));
    t := Attempt(s, plan[i].key, now);
    togo := if |t| < |s| then goal - 1 else goal;
  }

  /** The same, in terms of the handles that stay out. */
  lemma NextTurn(s: seq<CacheBuffer>, out: multiset<CacheBuffer>, stay: multiset<CacheBuffer>,
                 plan: seq<CacheBuffer>, releases: seq<seq<CacheBuffer>>, goal: nat, i: nat)
    returns (t: seq<CacheBuffer>, now: multiset<CacheBuffer>, togo: nat, next: nat)
    requires i < |plan| && goal > 0 && out == stay + GivenFrom(releases, i)
    ensures next == i + 1 && now == stay + GivenFrom(releases, next) && out == now + Bag(GivenAt(releases, i))
    ensures t == Attempt(s, plan[i].key, now) && togo == if |t| < |s| then goal - 1 else goal
    ensures EvictFrom(s, out, plan, releases, goal, i) == EvictFrom(t, now, plan, releases, togo, next)
  {
    next := i + 1;
    GivenNext(releases, i);
    t, now, togo := EvictTurn(s, out, plan, releases, goal, i);
    assert out == stay + GivenFrom(releases, next) + Bag(GivenAt(releases, i));
  }

  /** On every cache an eviction keeps the order of what it leaves and every buffer that stays referenced. */
  lemma {:induction false} EvictThins(s: seq<CacheBuffer>, out: multiset<CacheBuffer>, plan: seq<CacheBuffer>,
                                      releases: seq<seq<CacheBuffer>>, goal: nat, i: nat)
    requires NoDup(s) && i <= |plan|
    ensures var r := EvictFrom(s, out, plan, releases, goal, i).0;
            && NoDup(r) && Thinned(r, s) && Elems(r) <= Elems(s)
            && (forall b | b in s && b !in r :: (out - GivenFrom(releases, i))[b] == 0)
    decreases |plan| - i
  {
    if i == |plan| || goal == 0 {
      ThinnedSelf(s);
    } else {
      var t, now, togo := EvictTurn(s, out, plan, releases, goal, i);
      TurnFacts(s, now, plan[i].key);
      EvictThins(t, now, plan, releases, togo, i + 1);
      ThinnedTwice(EvictFrom(t, now, plan, releases, togo, i + 1).0, t, s);
      GivenNext(releases, i);
    }
  }

  /** It removes no more than it should, and stops short of that only at the end of the plan. */
  lemma {:induction false} EvictCounts(s: seq<CacheBuffer>, out: multiset<CacheBuffer>, plan: seq<CacheBuffer>,
                                       releases: seq<seq<CacheBuffer>>, goal: nat, i: nat)
    requires NoDup(s) && i <= |plan|
    ensures var (r, turns) := EvictFrom(s, out, plan, releases, goal, i);
            && |r| <= |s| <= |r| + goal && i <= turns <= |plan| && (|s| == |r| + goal || turns == |plan|)
    decreases |plan| - i
  {
    if i < |plan| && goal > 0 {
      var t, now, togo := EvictTurn(s, out, plan, releases, goal, i);
      TurnFacts(s, now, plan[i].key);
      EvictCounts(t, now, plan, releases, togo, i + 1);
    }
  }

  lemma EvictFacts(s: seq<CacheBuffer>, out: multiset<CacheBuffer>, plan: seq<CacheBuffer>,
                   releases: seq<seq<CacheBuffer>>, goal: nat)
    requires NoDup(s)
    ensures var (r, turns) := Evict(s, out, plan, releases, goal);
            && NoDup(r) && Thinned(r, s) && Elems(r) <= Elems(s) && |r| <= |s| <= |r| + goal
            && (forall b | b in s && b !in r :: (out - AllGiven(releases))[b] == 0)
            && turns <= |plan| && (|s| == |r| + goal || turns == |plan|)
  {
    EvictThins(s, out, plan, releases, goal, 0);
    EvictCounts(s, out, plan, releases, goal, 0);
  }

  // ---- When keys denote what was planned ----

  /**
   If each planned key denotes its buffer once the earlier ones are gone, an eviction removes the planned buffers,
   whatever is given back meanwhile.
   */
  lemma {:induction false} FaithfulFrom(s: seq<CacheBuffer>, out: multiset<CacheBuffer>, plan: seq<CacheBuffer>,
                                        releases: seq<seq<CacheBuffer>>, goal: nat, i: nat, end: nat)
    requires NoDup(s) && Faithful(s, plan) && i + goal == end <= |plan| && forall b | b in plan :: out[b] == 0
    ensures EvictFrom(Minus(s, Elems(plan[..i])), out, plan, releases, goal, i) == (Minus(s, Elems(plan[..end])), end)
    decreases goal
  {
    if goal > 0 {
      var now := out - Bag(GivenAt(releases, i));
      FaithfulTurn(s, now, plan, i);
      FaithfulFrom(s, now, plan, releases, goal - 1, i + 1, end);
    }
  }

  /** At its turn the buffer that owns the key of a planned entry is still there, and the turn deletes it. */
  lemma FaithfulTurn(s: seq<CacheBuffer>, out: multiset<CacheBuffer>, plan: seq<CacheBuffer>, i: nat)
    requires NoDup(s) && Faithful(s, plan) && i < |plan| && out[plan[i]] == 0
    ensures var was := Minus(s, Elems(plan[..i]));
            && plan[i] in was && Attempt(was, plan[i].key, out) == Minus(s, Elems(plan[..i + 1]))
            && |Minus(s, Elems(plan[..i + 1]))| + 1 == |was|
  {
    assert FaithfulAt(s, plan, i);
    ExtendPrefix(s, plan, i);
    DeleteAccounts(Minus(s, Elems(plan[..i])), plan[i].key);
  }

  lemma FaithfulEvict(s: seq<CacheBuffer>, out: multiset<CacheBuffer>, plan: seq<CacheBuffer>,
                      releases: seq<seq<CacheBuffer>>, goal: nat)
    requires NoDup(s) && Faithful(s, plan) && goal <= |plan| && forall b | b in plan :: out[b] == 0
    ensures Evict(s, out, plan, releases, goal) == (Minus(s, Elems(plan[..goal])), goal)
  {
    MinusNone(s, Elems(plan[..0]));
    FaithfulFrom(s, out, plan, releases, goal, 0, goal);
  }

  // ---- When nothing is given back ----

  /** Then an eviction is an undisturbed run of the plan, on every cache. */
  lemma {:induction false} UndisturbedFrom(s: seq<CacheBuffer>, was: seq<CacheBuffer>, out: multiset<CacheBuffer>,
                                           plan: seq<CacheBuffer>, releases: seq<seq<CacheBuffer>>, goal: nat, i: nat)
    returns (turns: nat)
    requires NothingGiven(releases) && i <= |plan| && was == RunPlan(s, plan, i, out)
    ensures turns <= |plan| && EvictFrom(was, out, plan, releases, goal, i) == (RunPlan(s, plan, turns, out), turns)
    decreases |plan| - i
  {
    if i == |plan| || goal == 0 {
      turns := i;
    } else {
      var t, now, togo := EvictTurn(was, out, plan, releases, goal, i);
      NoneGiven(releases, out, i);
      RunPlanNext(s, plan, i, out);
      turns := UndisturbedFrom(s, t, out, plan, releases, togo, i + 1);
    }
  }

  lemma UndisturbedEvict(s: seq<CacheBuffer>, out: multiset<CacheBuffer>, plan: seq<CacheBuffer>,
                         releases: seq<seq<CacheBuffer>>, goal: nat)
    returns (turns: nat)
    requires NothingGiven(releases)
    ensures turns <= |plan| && Evict(s, out, plan, releases, goal) == (RunPlan(s, plan, turns, out), turns)
  {
    turns := UndisturbedFrom(s, s, out, plan, releases, goal, 0);
  }

  lemma RunPlanNext(s: seq<CacheBuffer>, plan: seq<CacheBuffer>, m: nat, out: multiset<CacheBuffer>)
    requires m < |plan|
    ensures RunPlan(s, plan, m + 1, out) == Attempt(RunPlan(s, plan, m, out), plan[m].key, out)
  {}

  lemma NoneGiven(releases: seq<seq<CacheBuffer>>, out: multiset<CacheBuffer>, i: nat)
    requires NothingGiven(releases)
    ensures out - Bag(GivenAt(releases, i)) == out
  {
    assert GivenAt(releases, i) == [];
  }

  // ---- Exact evictions ----

  /** `kept` is `was` without `victims`, and these were the least recently used of `idle`. */
  ghost predicate Evicted(kept: seq<CacheBuffer>, was: seq<CacheBuffer>, idle: set<CacheBuffer>,
                          victims: seq<CacheBuffer>)
    reads idle`lastReference, victims`lastReference
  {
    kept == Minus(was, Elems(victims)) && LeastRecentlyUsed(idle, victims)
  }

  lemma NothingEvicted(s: seq<CacheBuffer>, idle: set<CacheBuffer>) returns (victims: seq<CacheBuffer>)
    ensures victims == [] && Evicted(s, s, idle, victims)
  {
    victims := [];
    MinusNone(s, Elems(victims));
  }

  lemma PlanPrefix(s: seq<CacheBuffer>, out: multiset<CacheBuffer>, plan: seq<CacheBuffer>, goal: nat)
    requires NoDup(s) && IsPlan(plan, s, out) && goal <= |plan|
    ensures LeastRecentlyUsed(IdleSet(s, out), plan[..goal])
    ensures |Minus(s, Elems(plan[..goal]))| + goal == |s|
    ensures Memory(Minus(s, Elems(plan[..goal]))) + Memory(plan[..goal]) == Memory(s)
  {
    PrefixIsLeastRecentlyUsed(s, plan, goal, out);
    assert forall b | b in plan[..goal] :: b in plan;
    MinusAccounts(s, plan[..goal]);
  }

  /** On an unshadowed cache an eviction removes what was planned, whatever is given back meanwhile. */
  lemma UnshadowedEvict(s: seq<CacheBuffer>, out: multiset<CacheBuffer>, plan: seq<CacheBuffer>,
                        releases: seq<seq<CacheBuffer>>, goal: nat)
    requires NoDup(s) && Unshadowed(s, out) && IsPlan(plan, s, out) && goal <= |plan|
    ensures var left := Evict(s, out, plan, releases, goal).0;
            && Evicted(left, s, IdleSet(s, out), plan[..goal])
            && |left| + goal == |s| && Memory(left) + Memory(plan[..goal]) == Memory(s)
  {
    PlanIsFaithful(s, plan, out);
    FaithfulEvict(s, out, plan, releases, goal);
    PlanPrefix(s, out, plan, goal);
  }

  lemma PlanCounts(s: seq<CacheBuffer>, out: multiset<CacheBuffer>, plan: seq<CacheBuffer>)
    requires NoDup(s) && IsPlan(plan, s, out)
    ensures |plan| == |IdleSet(s, out)| && Memory(plan) == IdleMemory(s, out) <= Memory(s)
  {
    ElemsCount(plan);
    assert Elems(plan) == IdleSet(s, out);
    PlanMemory(s, plan, out);
    IdleMemoryBound(s, out);
  }

  // ---- Creation ----

  /** The least number of leading plan entries whose sizes add up to `need`, or 0 if all are too small. */
  ghost function LeastPrefix(plan: seq<CacheBuffer>, need: nat): (m: nat)
    ensures m <= |plan|
  {
    if plan == [] then 0
    else
      var n := |plan| - 1;
      var m := LeastPrefix(plan[..n], need);
      if m > 0 then m else if Memory(plan) >= need then n + 1 else 0
  }

  lemma {:induction false} LeastPrefixIs(plan: seq<CacheBuffer>, need: nat)
    requires need > 0
    ensures var m := LeastPrefix(plan, need);
            if m == 0 then Memory(plan) < need else ShortestPrefix(plan, m, need)
  {
    if plan != [] {
      var p := plan[..|plan| - 1];
      LeastPrefixIs(p, need);
      var m := LeastPrefix(p, need);
      if m > 0 {
        assert p[..m] == plan[..m] && p[..m - 1] == plan[..m - 1];
      } else {
        assert plan[..|plan|] == plan;
      }
    }
  }

  lemma LeastPrefixFound(plan: seq<CacheBuffer>, need: nat)
    requires need > 0
    ensures LeastPrefix(plan, need) > 0 <==> Memory(plan) >= need
  {
    var m := LeastPrefix(plan, need);
    LeastPrefixIs(plan, need);
    PrefixMemoryGrows(plan, m, |plan|);
    assert plan[..|plan|] == plan;
  }

  lemma ShortestPrefixIsLeast(plan: seq<CacheBuffer>, m: nat, need: nat)
    requires ShortestPrefix(plan, m, need)
    ensures LeastPrefix(plan, need) == m
  {
    LeastPrefixIs(plan, need);
    var k := LeastPrefix(plan, need);
    assert need > 0;
    PrefixMemoryGrows(plan, m, |plan|);
    assert plan[..|plan|] == plan;
    if k < m {
      PrefixMemoryGrows(plan, k, m - 1);
    } else if m < k {
      PrefixMemoryGrows(plan, m, k - 1);
    }
  }

  lemma {:induction false} PrefixMemoryGrows(plan: seq<CacheBuffer>, m: nat, n: nat)
    requires m <= n <= |plan|
    ensures Memory(plan[..m]) <= Memory(plan[..n])
  {
    if m < n {
      PrefixMemoryGrows(plan, m, n - 1);
      MemoryPrefix(plan, n - 1);
    }
  }

  /** What `_freeLRUBuffersMemory` leaves. */
  ghost function EvictMemory(s: seq<CacheBuffer>, out: multiset<CacheBuffer>, plan: seq<CacheBuffer>,
                             releases: seq<seq<CacheBuffer>>, memory: nat): seq<CacheBuffer>
  {
    Evict(s, out, plan, releases, LeastPrefix(plan, memory)).0
  }

  /** What `_freeLRUBuffersCount` leaves. */
  ghost function EvictCount(s: seq<CacheBuffer>, out: multiset<CacheBuffer>, plan: seq<CacheBuffer>,
                            releases: seq<seq<CacheBuffer>>, count: nat): seq<CacheBuffer>
  {
    if |plan| < count then s else Evict(s, out, plan, releases, count).0
  }

  /**
   `CreateBuffer` up to the new node: its answer, and what is then left in the table. `plan` is what it would
   evict and `releases` are the handles given back meanwhile.
   */
  ghost function Creation(l: Limits, s: seq<CacheBuffer>, out: multiset<CacheBuffer>, size: nat,
                          plan: seq<CacheBuffer>, releases: seq<seq<CacheBuffer>>): (Status, seq<CacheBuffer>)
  {
    if l.bufferSize < size then (BufferSizeLimit, s)
    else if Memory(s) + size > l.memory then
      var memory := Memory(s) + size - l.memory;
      var goal, left := LeastPrefix(plan, memory), EvictMemory(s, out, plan, releases, memory);
      if goal > 0 && |left| + goal == |s| && Memory(left) + size <= l.memory then (Ok, left)
      else (MemoryLimitExceeded, left)
    else if |s| >= l.entries then
      var left := EvictCount(s, out, plan, releases, 1);
      (if |left| < |s| then Ok else BufferCountExceeded, left)
    else (Ok, s)
  }

  /** On every cache the survivors keep their order, and a buffer that stays referenced stays. */
  lemma CreationFacts(l: Limits, s: seq<CacheBuffer>, out: multiset<CacheBuffer>, size: nat,
                      plan: seq<CacheBuffer>, releases: seq<seq<CacheBuffer>>)
    requires NoDup(s)
    ensures var left := Creation(l, s, out, size, plan, releases).1;
            && NoDup(left) && Thinned(left, s) && Elems(left) <= Elems(s)
            && (forall b | b in s && b !in left :: (out - AllGiven(releases))[b] == 0)
  {
    if l.bufferSize < size {
      ThinnedSelf(s);
    } else if Memory(s) + size > l.memory {
      EvictFacts(s, out, plan, releases, LeastPrefix(plan, Memory(s) + size - l.memory));
    } else if |s| >= l.entries {
      ThinnedSelf(s);
      EvictFacts(s, out, plan, releases, 1);
    } else {
      ThinnedSelf(s);
    }
  }

  // ---- What a creation must answer ----

  /** The answer that the limits and the buffers without a handle call for. */
  ghost function Verdict(l: Limits, s: seq<CacheBuffer>, out: multiset<CacheBuffer>, size: nat): Status {
    if l.bufferSize < size then BufferSizeLimit
    else if Memory(s) + size > l.memory then
      if IdleMemory(s, out) >= Memory(s) + size - l.memory then Ok else MemoryLimitExceeded
    else if |s| == l.entries && IdleSet(s, out) == {} then BufferCountExceeded
    else Ok
  }

  /** The eviction of `victims` is needed for `size` more bytes and one more entry, and is no larger. */
  ghost predicate NoMoreThanNeeded(l: Limits, victims: seq<CacheBuffer>, size: nat, used: nat, count: nat) {
    if used + size > l.memory then ShortestPrefix(victims, |victims|, used + size - l.memory)
    else |victims| == if count == l.entries then 1 else 0
  }

  ghost predicate Within(l: Limits, s: seq<CacheBuffer>) {
    NoDup(s) && |s| <= l.entries && Memory(s) <= l.memory && l.entries > 0
  }

  // ---- What the answer means ----

  /** Without `gone` there is room for `size` more bytes and one more entry. */
  ghost predicate MakesRoom(l: Limits, s: seq<CacheBuffer>, gone: seq<CacheBuffer>, size: nat) {
    Memory(s) - Memory(gone) + size <= l.memory && |s| - |gone| < l.entries
  }

  /** Some of the buffers that no handle is out on. */
  ghost predicate IdleOnes(s: seq<CacheBuffer>, out: multiset<CacheBuffer>, gone: seq<CacheBuffer>) {
    NoDup(gone) && Elems(gone) <= IdleSet(s, out)
  }

  /** All the buffers without a handle; no choice of them is longer or holds more memory. */
  lemma AllIdle(s: seq<CacheBuffer>, out: multiset<CacheBuffer>) returns (all: seq<CacheBuffer>)
    requires NoDup(s)
    ensures IdleOnes(s, out, all) && Memory(all) == IdleMemory(s, out) && |all| == |IdleSet(s, out)|
    ensures forall gone | IdleOnes(s, out, gone) :: Memory(gone) <= Memory(all) && |gone| <= |all|
  {
    all := YoungestFirst(s, out);
    YoungestFirstIsPlan(s, out);
    PlanCounts(s, out, all);
    assert Elems(all) == IdleSet(s, out);
    forall gone | IdleOnes(s, out, gone)
      ensures Memory(gone) <= Memory(all) && |gone| <= |all|
    {
      MinusAccounts(all, gone);
    }
  }

  /**
   The verdict is Ok exactly when the size is allowed and some choice of buffers without a handle makes room; the
   other answers say what is in the way.
   */
  lemma VerdictIsRoom(l: Limits, s: seq<CacheBuffer>, out: multiset<CacheBuffer>, size: nat)
    requires Within(l, s)
    ensures Verdict(l, s, out, size) == Ok <==>
            size <= l.bufferSize && exists gone :: IdleOnes(s, out, gone) && MakesRoom(l, s, gone, size)
    ensures Verdict(l, s, out, size) == BufferSizeLimit <==> size > l.bufferSize
    ensures Verdict(l, s, out, size) == MemoryLimitExceeded <==>
            size <= l.bufferSize && forall gone | IdleOnes(s, out, gone) :: Memory(s) - Memory(gone) + size > l.memory
  {
    var all := AllIdle(s, out);
    var none: seq<CacheBuffer> := [];
    assert IdleOnes(s, out, none);
    if Verdict(l, s, out, size) == Ok {
      assert MakesRoom(l, s, if Memory(s) + size > l.memory || |s| == l.entries then all else none, size);
    }
  }

  lemma PrefixesTooShort(victims: seq<CacheBuffer>, need: nat)
    requires need > 0 && ShortestPrefix(victims, |victims|, need)
    ensures forall m | 0 <= m < |victims| :: Memory(victims[..m]) < need
  {
    forall m | 0 <= m < |victims|
      ensures Memory(victims[..m]) < need
    {
      PrefixMemoryGrows(victims, m, |victims| - 1);
    }
  }

  /** A list is as long as needed if and only if it makes room and no shorter part of it does. */
  lemma NeededIsLeast(l: Limits, s: seq<CacheBuffer>, victims: seq<CacheBuffer>, size: nat)
    requires Within(l, s)
    ensures NoMoreThanNeeded(l, victims, size, Memory(s), |s|) <==>
            MakesRoom(l, s, victims, size) && forall m | 0 <= m < |victims| :: !MakesRoom(l, s, victims[..m], size)
  {
    var n := |victims|;
    assert victims[..n] == victims;
    if Memory(s) + size > l.memory {
      var need := Memory(s) + size - l.memory;
      if ShortestPrefix(victims, n, need) {
        PrefixesTooShort(victims, need);
      } else if n > 0 && MakesRoom(l, s, victims, size) {
        assert MakesRoom(l, s, victims[..n - 1], size);
      }
    } else if n > 0 {
      PrefixMemoryGrows(victims, 0, n);
      assert Memory(victims[..1]) >= 0 && Memory(victims[..0]) == 0;
      assert n > 1 ==> MakesRoom(l, s, victims[..1], size);
      assert |s| < l.entries ==> MakesRoom(l, s, victims[..0], size);
    }
  }

  /** A request that cannot be met is refused and changes nothing, on every cache. */
  lemma RefusalIsFinal(l: Limits, s: seq<CacheBuffer>, out: multiset<CacheBuffer>, size: nat,
                       plan: seq<CacheBuffer>, releases: seq<seq<CacheBuffer>>)
    requires Within(l, s) && IsPlan(plan, s, out) && Verdict(l, s, out, size) != Ok
    ensures Creation(l, s, out, size, plan, releases) == (Verdict(l, s, out, size), s)
  {
    PlanCounts(s, out, plan);
    if Memory(s) + size > l.memory {
      LeastPrefixFound(plan, Memory(s) + size - l.memory);
    }
  }

  /**
   On unshadowed caches a creation is all-or-nothing: the answer follows from the limits and from what was idle
   before, and what goes is exactly what is needed of the least recently used buffers.
   */
  lemma CreationIsExact(l: Limits, s: seq<CacheBuffer>, out: multiset<CacheBuffer>, size: nat,
                        plan: seq<CacheBuffer>, releases: seq<seq<CacheBuffer>>)
    returns (victims: seq<CacheBuffer>)
    requires Within(l, s) && IsPlan(plan, s, out) && Unshadowed(s, out)
    ensures var (r, left) := Creation(l, s, out, size, plan, releases);
            && r == Verdict(l, s, out, size) && Evicted(left, s, IdleSet(s, out), victims)
            && (if r == Ok then NoMoreThanNeeded(l, victims, size, Memory(s), |s|) else left == s)
  {
    if Verdict(l, s, out, size) != Ok {
      RefusalIsFinal(l, s, out, size, plan, releases);
      victims := NothingEvicted(s, IdleSet(s, out));
    } else {
      victims := GrantIsExact(l, s, out, size, plan, releases);
    }
  }

  lemma GrantIsExact(l: Limits, s: seq<CacheBuffer>, out: multiset<CacheBuffer>, size: nat,
                     plan: seq<CacheBuffer>, releases: seq<seq<CacheBuffer>>)
    returns (victims: seq<CacheBuffer>)
    requires Within(l, s) && IsPlan(plan, s, out) && Unshadowed(s, out) && Verdict(l, s, out, size) == Ok
    ensures Granted(l, s, out, size, plan, releases, victims)
  {
    if Memory(s) + size > l.memory {
      victims := GrantForMemory(l, s, out, size, plan, releases);
    } else if |s| == l.entries {
      victims := GrantForCount(l, s, out, size, plan, releases);
    } else {
      victims := GrantAtOnce(l, s, out, size, plan, releases);
    }
  }

  lemma GrantForMemory(l: Limits, s: seq<CacheBuffer>, out: multiset<CacheBuffer>, size: nat,
                       plan: seq<CacheBuffer>, releases: seq<seq<CacheBuffer>>)
    returns (victims: seq<CacheBuffer>)
    requires Within(l, s) && IsPlan(plan, s, out) && Unshadowed(s, out) && Verdict(l, s, out, size) == Ok
    requires Memory(s) + size > l.memory
    ensures Granted(l, s, out, size, plan, releases, victims)
  {
    victims := MemoryIsExact(s, out, plan, releases, Memory(s) + size - l.memory);
  }

  lemma GrantForCount(l: Limits, s: seq<CacheBuffer>, out: multiset<CacheBuffer>, size: nat,
                      plan: seq<CacheBuffer>, releases: seq<seq<CacheBuffer>>)
    returns (victims: seq<CacheBuffer>)
    requires Within(l, s) && IsPlan(plan, s, out) && Unshadowed(s, out) && Verdict(l, s, out, size) == Ok
    requires Memory(s) + size <= l.memory && |s| == l.entries
    ensures Granted(l, s, out, size, plan, releases, victims)
  {
    victims := CountIsExact(s, out, plan, releases);
  }

  lemma GrantAtOnce(l: Limits, s: seq<CacheBuffer>, out: multiset<CacheBuffer>, size: nat,
                    plan: seq<CacheBuffer>, releases: seq<seq<CacheBuffer>>)
    returns (victims: seq<CacheBuffer>)
    requires Within(l, s) && IsPlan(plan, s, out) && Unshadowed(s, out) && Verdict(l, s, out, size) == Ok
    requires Memory(s) + size <= l.memory && |s| < l.entries
    ensures Granted(l, s, out, size, plan, releases, victims)
  {
    victims := NothingEvicted(s, IdleSet(s, out));
  }

  /** The creation succeeds and removes `victims`, as many as it needs of the least recently used. */
  ghost predicate Granted(l: Limits, s: seq<CacheBuffer>, out: multiset<CacheBuffer>, size: nat,
                          plan: seq<CacheBuffer>, releases: seq<seq<CacheBuffer>>, victims: seq<CacheBuffer>)
    reads s`lastReference, victims`lastReference
  {
    var (r, left) := Creation(l, s, out, size, plan, releases);
    r == Ok && Evicted(left, s, IdleSet(s, out), victims) && NoMoreThanNeeded(l, victims, size, Memory(s), |s|)
  }

  lemma CountIsExact(s: seq<CacheBuffer>, out: multiset<CacheBuffer>, plan: seq<CacheBuffer>,
                     releases: seq<seq<CacheBuffer>>)
    returns (victims: seq<CacheBuffer>)
    requires NoDup(s) && IsPlan(plan, s, out) && Unshadowed(s, out) && IdleSet(s, out) != {}
    ensures var left := EvictCount(s, out, plan, releases, 1);
            |left| < |s| && Evicted(left, s, IdleSet(s, out), victims) && |victims| == 1
  {
    PlanCounts(s, out, plan);
    UnshadowedEvict(s, out, plan, releases, 1);
    victims := plan[..1];
  }

  lemma MemoryIsExact(s: seq<CacheBuffer>, out: multiset<CacheBuffer>, plan: seq<CacheBuffer>,
                      releases: seq<seq<CacheBuffer>>, need: nat)
    returns (victims: seq<CacheBuffer>)
    requires NoDup(s) && IsPlan(plan, s, out) && Unshadowed(s, out) && 0 < need <= IdleMemory(s, out)
    ensures var goal := LeastPrefix(plan, need);
            var left := EvictMemory(s, out, plan, releases, need);
            && goal > 0 && |left| + goal == |s| && Memory(left) + need <= Memory(s)
            && Evicted(left, s, IdleSet(s, out), victims) && ShortestPrefix(victims, |victims|, need)
  {
    var goal := LeastPrefix(plan, need);
    PlanCounts(s, out, plan);
    LeastPrefixIs(plan, need);
    UnshadowedEvict(s, out, plan, releases, goal);
    ShortestPrefixItself(plan, goal, need);
    victims := plan[..goal];
  }
}
