/**
 src/cache/cache.c: the LRU cache manager. The chained hash table is kept in step with the
 insertion-ordered association `order`; every operation is specified on `order` and on the handles that are out.
 */
module Cache {
  import opened CBytes
  import opened Collections
  import opened Hash
  import opened Association
  import opened EvictionPlan
  import opened CacheModel

  /** `a + b` as `size_t` computes it. */
  function AddSize(a: nat, b: nat): nat {
    (a + b) % WORD
  }

  lemma NoWrap(a: nat, b: nat)
    requires a + b < WORD
    ensures AddSize(a, b) == a + b
  {
  }

  class CacheManager {
    const maxMemory: nat
    const maxEntries: nat
    const maxBufferSize: nat
    const table: array<seq<CacheBuffer>>
    var usedMemory: nat
    var entryCount: nat
    /** Is the manager mutex held? */
    var locked: bool
    /** The buffers in the table, oldest creation first. */
    ghost var order: seq<CacheBuffer>
    /** History: every buffer ever created, oldest creation first. */
    ghost var history: seq<CacheBuffer>
    /** One occurrence per handle given out by the two getters and not yet released. */
    ghost var handles: multiset<CacheBuffer>

    /** The table holds `order`, bucket by bucket, and the counters and limits agree with it. */
    ghost predicate Accounted()
      reads this`usedMemory, this`entryCount, this`order, table
    {
      && maxEntries == table.Length
      && maxMemory + maxBufferSize < WORD
      && Represents(table[..], order)
      && entryCount == |order| <= maxEntries
      && usedMemory == Memory(order) <= maxMemory
      && (forall b | b in order :: b.size <= maxBufferSize)
    }

    /** A reference count is the number of outstanding handles, and no handle has lost its buffer. */
    ghost predicate HandlesSafe()
      reads this`order, this`handles, order`references
    {
      && (forall b | b in order :: b.references == handles[b])
      && (forall b | b in handles :: b in order)
    }

    /** What is in the table is what was created, in that order, without what has been evicted. */
    ghost predicate Remembered()
      reads this`order, this`history
    {
      NoDup(history) && Elems(order) <= Elems(history) && Thinned(order, history)
    }

    ghost predicate Valid()
      reads this`usedMemory, this`entryCount, this`order, this`history, this`handles, table, order`references
    {
      Accounted() && HandlesSafe() && Remembered()
    }

    ghost function EvictedSoFar(): set<CacheBuffer>
      reads this`order, this`history
    {
      Elems(history) - Elems(order)
    }

    ghost function Bounds(): Limits {
      Limits(maxMemory, maxEntries, maxBufferSize)
    }

    constructor (maxMemory: nat, maxEntries: nat, maxBufferSize: nat)
      requires maxEntries > 0 && maxMemory + maxBufferSize < WORD
      ensures Valid() && !locked && order == [] && history == [] && handles == multiset{} && fresh(table)
      ensures this.maxMemory == maxMemory && this.maxEntries == maxEntries && this.maxBufferSize == maxBufferSize
    {
      this.maxMemory, this.maxEntries, this.maxBufferSize := maxMemory, maxEntries, maxBufferSize;
      usedMemory, entryCount, locked := 0, 0, false;
      order, history, handles := [], [], multiset{};
      table := new seq<CacheBuffer>[maxEntries](_ => []);
    }

    // ---- Handles ----

    /** `ReleaseBuffer` and `ReleaseWriteBuffer`: only the buffer's own mutex is taken. */
    method ReleaseBuffer(b: CacheBuffer)
      requires Valid() && b in handles
      modifies this`handles, b`references
      ensures Valid()
      ensures handles == old(handles) - multiset{b} && old(handles) == handles + multiset{b}
      ensures b.references == old(b.references) - 1
    {
      b.references := b.references - 1;
      handles := handles - multiset{b};
    }

    /** Releases by other threads, also while the manager mutex is held: the handles `stay` remain out. */
    method Interference(releases: seq<CacheBuffer>, ghost stay: multiset<CacheBuffer>)
      requires Valid() && handles == stay + Bag(releases)
      modifies this`handles, Elems(order)`references
      ensures Valid() && handles == stay
      decreases |releases|
    {
      if releases != [] {
        var b := releases[|releases| - 1];
        Interference(releases[..|releases| - 1], stay + multiset{b});
        ReleaseBuffer(b);
      }
    }

    /** The releases from number `i` on, one list after the other. */
    method ReleaseFrom(releases: seq<seq<CacheBuffer>>, i: nat, ghost stay: multiset<CacheBuffer>)
      requires Valid() && handles == stay + GivenFrom(releases, i)
      modifies this`handles, Elems(order)`references
      ensures Valid() && handles == stay
      decreases |releases| - i
    {
      if i < |releases| {
        GivenNext(releases, i);
        var next := i + 1;
        Interference(releases[i], stay + GivenFrom(releases, next));
        ReleaseFrom(releases, next, stay);
      }
    }

    /** What a lookup in the table finds is the oldest creation under the key that has not been evicted. */
    lemma LookupIsOldest(key: CString)
      requires Valid()
      ensures OldestLeft(history, EvictedSoFar(), key, if Present(order, key) then First(order, key) else null)
    {
      ThinnedIsMinus(order, history);
      LookupOldestLeft(history, EvictedSoFar(), key);
    }

    /** The walk shared by the two getters. */
    method FindNode(key: CString) returns (node: CacheBuffer?)
      requires Valid()
      ensures node == if Present(order, key) then First(order, key) else null
      ensures OldestLeft(history, EvictedSoFar(), key, node)
    {
      LookupIsOldest(key);
      var h := Djb2(key, table.Length);
      var chain := table[h];
      RepresentsLookup(table[..], order, key);
      var i := 0;
      while i < |chain|
        invariant 0 <= i <= |chain|
        invariant forall k :: 0 <= k < i ==> chain[k].key != key
      {
        if chain[i].key == key {
          return chain[i];
        }
        i := i + 1;
      }
      node := null;
    }

    /** `GetBuffer`, at time `now`: the oldest buffer still created under `key`, with one more handle on it. */
    method GetBuffer(key: CString, now: int) returns (r: CacheBuffer?)
      requires Valid() && !locked
      modifies this`handles, this`locked, Elems(order)`references, Elems(order)`lastReference
      ensures Valid() && !locked
      ensures r == if Present(order, key) then First(order, key) else null
      ensures handles == if r == null then old(handles) else old(handles) + multiset{r}
      ensures r != null ==> r.references == old(r.references) + 1 && r.lastReference == now
      ensures forall b | b in order && b != r :: unchanged(b)
    {
      locked := true;
      r := FindNode(key);
      if r != null {
        AddHandle(r, now);
      }
      locked := false;
    }

    /** `GetWriteBuffer`: as `GetBuffer`, but on a miss it returns with the manager mutex held. */
    method GetWriteBuffer(key: CString, now: int) returns (r: CacheBuffer?)
      requires Valid() && !locked
      modifies this`handles, this`locked, Elems(order)`references, Elems(order)`lastReference
      ensures Valid()
      ensures locked <==> !Present(order, key)
      ensures r == if Present(order, key) then First(order, key) else null
      ensures handles == if r == null then old(handles) else old(handles) + multiset{r}
      ensures r != null ==> r.references == old(r.references) + 1 && r.lastReference == now
      ensures forall b | b in order && b != r :: unchanged(b)
    {
      locked := true;
      r := FindNode(key);
      if r != null {
        AddHandle(r, now);
        locked := false;
      }
    }

    /** `_CreateReadBuffer` and `_CreateWriteBuffer`. */
    method AddHandle(b: CacheBuffer, now: int)
      requires Valid() && b in order
      modifies this`handles, b`references, b`lastReference
      ensures Valid()
      ensures handles == old(handles) + multiset{b}
      ensures b.references == old(b.references) + 1 && b.lastReference == now
    {
      b.references := b.references + 1;
      b.lastReference := now;
      handles := handles + multiset{b};
    }

    // ---- Deletion ----

    /** Takes the node at position `i` of chain `h` out of the table. */
    method Unlink(h: nat, i: nat, key: CString)
      requires Valid() && h == HashOf(key, maxEntries)
      requires Present(table[h], key) && i == FirstIndex(table[h], key) && table[h][i].references == 0
      modifies this`usedMemory, this`entryCount, this`order, table
      ensures Valid() && order == Delete(old(order), key) && usedMemory <= old(usedMemory)
    {
      var chain := table[h];
      ghost var rest := Delete(order, key);
      ghost var chains := table[..][h := RemoveAt(chain, i)];
      UnlinkedFacts(h, i, key);
      ThinnedDelete(order, key);
      ThinnedTwice(rest, order, history);
      usedMemory := usedMemory - chain[i].size;
      entryCount := entryCount - 1;
      table[h] := chain[..i] + chain[i + 1..];
      order := rest;
      assert table[..] == chains;
    }

    lemma UnlinkedFacts(h: nat, i: nat, key: CString)
      requires Valid() && h == HashOf(key, maxEntries)
      requires Present(table[h], key) && i == FirstIndex(table[h], key)
      ensures var rest := Delete(order, key);
              && Represents(table[..][h := RemoveAt(table[h], i)], rest)
              && |order| == |rest| + 1 && Memory(order) == Memory(rest) + table[h][i].size
              && (forall b | b in rest :: b in order)
              && (forall b | b in order && b != table[h][i] :: b in rest)
              && (forall b | b in rest :: b != table[h][i])
    {
      RepresentsLookup(table[..], order, key);
      RepresentsDelete(table[..], order, key);
      DeleteIsRemoval(table[h], key);
      DeleteAccounts(order, key);
      OthersStay(order, key);
    }

    static lemma OthersStay(s: seq<CacheBuffer>, key: CString)
      requires NoDup(s) && Present(s, key)
      ensures forall b | b in Delete(s, key) :: b in s && b != First(s, key)
      ensures forall b | b in s && b != First(s, key) :: b in Delete(s, key)
    {
      DeleteMembers(s, key);
      var rest := Elems(Delete(s, key));
      assert rest == Elems(s) - {First(s, key)};
      forall b | b in Delete(s, key)
        ensures b in s && b != First(s, key)
      {
        assert b in rest;
      }
      forall b | b in s && b != First(s, key)
        ensures b in Delete(s, key)
      {
        assert b in rest;
      }
    }

    /** The walk of `_DeleteBuffer`: the head of the chain is tested first, then every successor. */
    static method FindInChain(chain: seq<CacheBuffer>, key: CString) returns (node: nat)
      ensures node == FirstIndex(chain, key)
    {
      if chain == [] {
        return 0;
      }
      if chain[0].key == key {
        return 0;
      }
      node := 0;
      while node + 1 < |chain|
        invariant 0 <= node < |chain|
        invariant forall k :: 0 <= k <= node ==> chain[k].key != key
      {
        if chain[node + 1].key == key {
          return node + 1;
        }
        node := node + 1;
      }
      node := |chain|;
    }

    /** `_DeleteBuffer`. */
    method DeleteBuffer(key: CString) returns (r: Status)
      requires Valid()
      modifies this`usedMemory, this`entryCount, this`order, table
      ensures Valid()
      ensures order == Attempt(old(order), key, handles)
      ensures usedMemory <= old(usedMemory)
      ensures r == if !old(Present(order, key)) then KeyNotFound
                   else if old(First(order, key).references) != 0 then BufferReferenced
                   else Ok
    {
      var h := Djb2(key, table.Length);
      RepresentsLookup(table[..], order, key);
      var chain := table[h];
      var node := FindInChain(chain, key);
      if node == |chain| {
        r := KeyNotFound;
      } else if chain[node].references != 0 {
        r := BufferReferenced;
      } else {
        Unlink(h, node, key);
        r := Ok;
      }
    }

    // ---- Eviction ----

    /** The buffers whose reference count is 0. */
    static ghost function Unreferenced(s: seq<CacheBuffer>): set<CacheBuffer>
      reads s`references
    {
      set b | b in s && b.references == 0
    }

    static lemma UnreferencedSnoc(p: seq<CacheBuffer>, b: CacheBuffer)
      ensures Unreferenced(p + [b]) == if b.references == 0 then Unreferenced(p) + {b} else Unreferenced(p)
    {
    }

    /** One chain of the copying scan. */
    static method ScanChain(chain: seq<CacheBuffer>, found: seq<CacheBuffer>) returns (lru: seq<CacheBuffer>)
      requires NoDup(chain) && NoDup(found) && Elems(chain) !! Elems(found)
      ensures NoDup(lru) && Elems(lru) == Elems(found) + Unreferenced(chain)
    {
      lru := found;
      var i := 0;
      while i < |chain|
        invariant 0 <= i <= |chain|
        invariant NoDup(lru) && Elems(lru) == Elems(found) + Unreferenced(chain[..i])
      {
        ScanNext(chain, found, lru, i);
        if chain[i].references == 0 {
          lru := lru + [chain[i]];
        }
        i := i + 1;
      }
      assert chain[..|chain|] == chain;
    }

    static lemma ScanNext(chain: seq<CacheBuffer>, found: seq<CacheBuffer>, lru: seq<CacheBuffer>, i: nat)
      requires NoDup(chain) && NoDup(lru) && Elems(chain) !! Elems(found) && i < |chain|
      requires Elems(lru) == Elems(found) + Unreferenced(chain[..i])
      ensures var next := if chain[i].references == 0 then lru + [chain[i]] else lru;
              NoDup(next) && Elems(next) == Elems(found) + Unreferenced(chain[..i + 1])
    {
      NoDupAt(chain, i);
      assert chain[i] in Elems(chain);
      assert chain[..i + 1] == chain[..i] + [chain[i]];
      UnreferencedSnoc(chain[..i], chain[i]);
      ElemsSnoc(lru, chain[i]);
    }

    /** The unreferenced buffers that lie in the first `h` chains. */
    ghost function IdleBelow(h: nat): set<CacheBuffer>
      requires maxEntries > 0
      reads this`order, order`references
    {
      set b | b in order && b.references == 0 && HashOf(b.key, maxEntries) < h
    }

    /**
     `_FindNotUsedLruEntries`: the unreferenced buffers, chain by chain, then sorted. The counting scan
     and the copying scan are one atomic step, so the count is the length of the list.
     */
    method FindNotUsedLruEntries() returns (plan: seq<CacheBuffer>)
      requires Valid()
      ensures IsPlan(plan, order, handles)
    {
      var lru: seq<CacheBuffer> := [];
      var h := 0;
      while h < table.Length
        invariant 0 <= h <= table.Length
        invariant NoDup(lru) && Elems(lru) == IdleBelow(h)
      {
        var chain := table[h];
        RepresentsMembers(table[..], order, h);
        assert Elems(chain) !! Elems(lru);
        lru := ScanChain(chain, lru);
        assert IdleBelow(h + 1) == IdleBelow(h) + Unreferenced(chain);
        h := h + 1;
      }
      plan := SortByLastReference(lru);
      assert forall b | b in plan :: b in Elems(lru);
      assert forall b | b in order && b.references == 0 :: b in Elems(lru);
    }

    /** Stands for `qsort` with `_compare_lru_entries`: callers may rely on no particular order of ties. */
    static method SortByLastReference(s: seq<CacheBuffer>) returns (t: seq<CacheBuffer>)
      requires NoDup(s)
      ensures NoDup(t) && ByLastReference(t)
      ensures forall b :: b in t <==> b in s
    {
      t := [];
      for n := 0 to |s|
        invariant NoDup(t) && ByLastReference(t)
        invariant forall b :: b in t <==> b in s[..n]
      {
        var k := 0;
        while k < |t| && t[k].lastReference < s[n].lastReference
          invariant 0 <= k <= |t|
          invariant forall q :: 0 <= q < k ==> t[q].lastReference < s[n].lastReference
        {
          k := k + 1;
        }
        assert s[..n + 1] == s[..n] + [s[n]];
        NoDupAt(s, n);
        InsertMembers(t, s[n], k);
        InsertNoDup(t, s[n], k);
        InsertSorted(t, s[n], k);
        t := t[..k] + [s[n]] + t[k..];
      }
      assert s[..|s|] == s;
    }

    /** One turn of a plan: other threads give back the handles `now`, and the planned key is deleted. */
    method DeletePlannedBuffer(key: CString, now: seq<CacheBuffer>, ghost stay: multiset<CacheBuffer>)
      returns (r: Status)
      requires Valid() && handles == stay + Bag(now)
      modifies this`usedMemory, this`entryCount, this`order, this`handles, table, Elems(order)`references
      ensures Valid() && Elems(order) <= old(Elems(order)) && usedMemory <= old(usedMemory)
      ensures handles == stay && order == Attempt(old(order), key, stay)
      ensures old(|order|) == |order| + if r == Ok then 1 else 0
    {
      Interference(now, stay);
      TurnFacts(order, stay, key);
      r := DeleteBuffer(key);
    }

    /** One turn of the loop below, which still has `goal` buffers to go and leads to `end`. */
    method DeleteTurn(plan: seq<CacheBuffer>, i: nat, releases: seq<seq<CacheBuffer>>, ghost goal: nat,
                      ghost stay: multiset<CacheBuffer>, ghost end: (seq<CacheBuffer>, nat))
      returns (r: Status, next: nat, ghost togo: nat)
      requires Valid() && i < |plan| && goal > 0 && handles == stay + GivenFrom(releases, i)
      requires EvictFrom(order, handles, plan, releases, goal, i) == end
      modifies this`usedMemory, this`entryCount, this`order, this`handles, table, Elems(order)`references
      ensures Valid() && Elems(order) <= old(Elems(order)) && usedMemory <= old(usedMemory)
      ensures next == i + 1 && handles == stay + GivenFrom(releases, next)
      ensures old(|order|) == |order| + if r == Ok then 1 else 0
      ensures togo == if r == Ok then goal - 1 else goal
      ensures EvictFrom(order, handles, plan, releases, togo, next) == end
    {
      ghost var left, now, turn;
      left, now, togo, turn := NextTurn(order, handles, stay, plan, releases, goal, i);
      r := DeletePlannedBuffer(plan[i].key, GivenAt(releases, i), now);
      next := i + 1;
    }

    /**
     The deletion loop of `_freeLRUBuffersCount` and `_freeLRUBuffersMemory`: planned keys are deleted until `goal`
     deletions have succeeded. `releases[i]` are the handles that other threads give back before deletion `i`.
     */
    method DeleteLoop(plan: seq<CacheBuffer>, goal: nat, releases: seq<seq<CacheBuffer>>,
                      ghost stay: multiset<CacheBuffer>)
      returns (freed: nat, turns: nat)
      requires Valid() && handles == stay + AllGiven(releases)
      modifies this`usedMemory, this`entryCount, this`order, this`handles, table, Elems(order)`references
      ensures Valid() && usedMemory <= old(usedMemory) && Elems(order) <= old(Elems(order))
      ensures (order, turns) == old(Evict(order, handles, plan, releases, goal))
      ensures turns <= |plan| && handles == stay + GivenFrom(releases, turns)
      ensures |order| + freed == old(|order|)
    {
      freed, turns := 0, 0;
      ghost var togo, end := goal, Evict(order, handles, plan, releases, goal);
      while turns < |plan| && freed < goal
        invariant turns <= |plan| && togo == goal - freed
        invariant Valid() && usedMemory <= old(usedMemory) && Elems(order) <= old(Elems(order))
        invariant handles == stay + GivenFrom(releases, turns)
        invariant EvictFrom(order, handles, plan, releases, togo, turns) == end
        invariant |order| + freed == old(|order|)
        decreases |plan| - turns
      {
        var err;
        err, turns, togo := DeleteTurn(plan, turns, releases, togo, stay, end);
        if err == Ok {
          freed := freed + 1;
        }
      }
    }

    /** The loop, and the releases that are left when it stops. */
    method CarryOut(plan: seq<CacheBuffer>, goal: nat, releases: seq<seq<CacheBuffer>>,
                    ghost stay: multiset<CacheBuffer>)
      returns (freed: nat, turns: nat)
      requires Valid() && handles == stay + AllGiven(releases)
      modifies this`usedMemory, this`entryCount, this`order, this`handles, table, Elems(order)`references
      ensures Valid() && usedMemory <= old(usedMemory) && Elems(order) <= old(Elems(order))
      ensures (order, turns) == old(Evict(order, handles, plan, releases, goal))
      ensures handles == stay
      ensures |order| + freed == old(|order|)
    {
      freed, turns := DeleteLoop(plan, goal, releases, stay);
      ReleaseFrom(releases, turns, stay);
    }

    /**
     What the loop leaves, on every cache: what is left when `turns` keys of the plan have been tried. That is what was
     not planned if keys denote their buffers, and an undisturbed run of the plan if no handle is given back.
     */
    method DeletePlanned(plan: seq<CacheBuffer>, goal: nat, releases: seq<seq<CacheBuffer>>,
                         ghost stay: multiset<CacheBuffer>)
      returns (freed: nat, turns: nat)
      requires Valid() && handles == stay + AllGiven(releases) && 0 < goal <= |plan| && IsPlan(plan, order, handles)
      modifies this`usedMemory, this`entryCount, this`order, this`handles, table, Elems(order)`references
      ensures Valid() && handles == stay && usedMemory <= old(usedMemory)
      ensures Elems(order) <= old(Elems(order)) && Thinned(order, old(order))
      ensures freed <= goal && |order| + freed == old(|order|)
      ensures (order, turns) == Evict(old(order), old(handles), plan, releases, goal)
      ensures freed == goal || turns == |plan|
      ensures NothingGiven(releases) ==> turns <= |plan| && order == RunPlan(old(order), plan, turns, old(handles))
      ensures Faithful(old(order), plan) ==> freed == goal && order == Minus(old(order), Elems(plan[..goal]))
    {
      PlannedRun(order, handles, plan, releases, goal);
      freed, turns := CarryOut(plan, goal, releases, stay);
    }

    /** What is known beforehand about a run of a plan. */
    static lemma PlannedRun(s: seq<CacheBuffer>, out: multiset<CacheBuffer>, plan: seq<CacheBuffer>,
                            releases: seq<seq<CacheBuffer>>, goal: nat)
      requires NoDup(s) && IsPlan(plan, s, out) && goal <= |plan|
      ensures var (left, turns) := Evict(s, out, plan, releases, goal);
              && Elems(left) <= Elems(s) && Thinned(left, s) && |left| <= |s| <= |left| + goal
              && (|left| + goal == |s| || turns == |plan|)
              && (NothingGiven(releases) ==> turns <= |plan| && left == RunPlan(s, plan, turns, out))
              && (Faithful(s, plan) ==> left == Minus(s, Elems(plan[..goal])) && |left| + goal == |s|)
    {
      EvictFacts(s, out, plan, releases, goal);
      if NothingGiven(releases) {
        var turns := UndisturbedEvict(s, out, plan, releases, goal);
      }
      if Faithful(s, plan) {
        FaithfulEvict(s, out, plan, releases, goal);
        PlanPrefix(s, out, plan, goal);
      }
    }

    /** The planning loop of `_freeLRUBuffersMemory`: the shortest prefix that is large enough, if any. */
    static method PlanMemoryPrefix(plan: seq<CacheBuffer>, memory: nat) returns (freeCount: nat, freeMemory: nat)
      requires memory > 0 && Memory(plan) < WORD
      ensures freeMemory >= memory <==> Memory(plan) >= memory
      ensures freeMemory >= memory ==> 0 < freeCount <= |plan| && ShortestPrefix(plan[..freeCount], freeCount, memory)
    {
      freeCount, freeMemory := 0, 0;
      var i := 0;
      while i < |plan|
        invariant 0 <= i == freeCount <= |plan|
        invariant freeMemory == Memory(plan[..i]) < memory
      {
        MemoryPrefix(plan, i);
        freeMemory := AddSize(freeMemory, plan[i].size);
        freeCount := freeCount + 1;
        i := i + 1;
        if freeMemory >= memory {
          ShortestPrefixItself(plan, freeCount, memory);
          return;
        }
      }
      assert plan[..i] == plan;
    }

    lemma PlanFits(plan: seq<CacheBuffer>)
      requires Valid() && IsPlan(plan, order, handles)
      ensures Memory(plan) < WORD
    {
      PlanCounts(order, handles, plan);
    }

    static lemma SamePrefix(plan: seq<CacheBuffer>, m: nat, need: nat)
      requires m <= |plan| && ShortestPrefix(plan[..m], m, need)
      ensures LeastPrefix(plan, need) == m
    {
      assert plan[..m][..m] == plan[..m] && plan[..m][..m - 1] == plan[..m - 1];
      ShortestPrefixIsLeast(plan, m, need);
    }

    /** The plan of `_freeLRUBuffersMemory` and how much of it to carry out: nothing when it is too small. */
    method PlanForMemory(memory: nat) returns (plan: seq<CacheBuffer>, freeCount: nat)
      requires Valid() && memory > 0
      ensures IsPlan(plan, order, handles) && freeCount == LeastPrefix(plan, memory)
    {
      plan := FindNotUsedLruEntries();
      PlanFits(plan);
      var freeMemory;
      freeCount, freeMemory := PlanMemoryPrefix(plan, memory);
      if freeMemory < memory {
        LeastPrefixFound(plan, memory);
        freeCount := 0;
      } else {
        SamePrefix(plan, freeCount, memory);
      }
    }

    /** `_freeLRUBuffersMemory`. */
    method FreeLruBuffersMemory(memory: nat, releases: seq<seq<CacheBuffer>>,
                                ghost stay: multiset<CacheBuffer>)
      returns (r: Status, ghost victims: seq<CacheBuffer>, ghost plan: seq<CacheBuffer>)
      requires Valid() && handles == stay + AllGiven(releases) && memory > 0
      modifies this`usedMemory, this`entryCount, this`order, this`handles, table, Elems(order)`references
      ensures Valid() && handles == stay
      ensures Elems(order) <= old(Elems(order)) && Thinned(order, old(order)) && usedMemory <= old(usedMemory)
      ensures IsPlan(plan, old(order), old(handles))
      ensures order == EvictMemory(old(order), old(handles), plan, releases, memory)
      ensures r == if LeastPrefix(plan, memory) > 0 && |order| + LeastPrefix(plan, memory) == old(|order|) then Ok
                   else BuffersUsed
      ensures IdleMemory(old(order), old(handles)) < memory ==> r == BuffersUsed && order == old(order)
      ensures Unshadowed(old(order), old(handles)) && IdleMemory(old(order), old(handles)) >= memory ==>
                && r == Ok && Evicted(order, old(order), IdleSet(old(order), old(handles)), victims)
                && ShortestPrefix(victims, |victims|, memory) && usedMemory + memory <= old(usedMemory)
    {
      ghost var was, before := order, handles;
      var entries, freeCount := PlanForMemory(memory);
      plan := entries;
      if freeCount == 0 {
        ThinnedSelf(order);
        ReleaseFrom(releases, 0, stay);
        r := BuffersUsed;
      } else {
        var freed, turns := DeletePlanned(entries, freeCount, releases, stay);
        r := if freed < freeCount then BuffersUsed else Ok;
      }
      victims := MemoryFacts(was, before, plan, releases, memory);
    }

    static lemma MemoryFacts(s: seq<CacheBuffer>, out: multiset<CacheBuffer>, plan: seq<CacheBuffer>,
                             releases: seq<seq<CacheBuffer>>, memory: nat)
      returns (victims: seq<CacheBuffer>)
      requires NoDup(s) && IsPlan(plan, s, out) && memory > 0
      ensures IdleMemory(s, out) < memory ==> LeastPrefix(plan, memory) == 0
      ensures Unshadowed(s, out) && IdleMemory(s, out) >= memory ==>
                var goal := LeastPrefix(plan, memory);
                var left := EvictMemory(s, out, plan, releases, memory);
                && goal > 0 && |left| + goal == |s| && Memory(left) + memory <= Memory(s)
                && Evicted(left, s, IdleSet(s, out), victims) && ShortestPrefix(victims, |victims|, memory)
    {
      victims := [];
      PlanCounts(s, out, plan);
      LeastPrefixFound(plan, memory);
      if Unshadowed(s, out) && IdleMemory(s, out) >= memory {
        victims := MemoryIsExact(s, out, plan, releases, memory);
      }
    }

    /** `_freeLRUBuffersCount`. */
    method FreeLruBuffersCount(count: nat, releases: seq<seq<CacheBuffer>>,
                               ghost stay: multiset<CacheBuffer>)
      returns (r: Status, ghost plan: seq<CacheBuffer>)
      requires Valid() && handles == stay + AllGiven(releases) && count > 0
      modifies this`usedMemory, this`entryCount, this`order, this`handles, table, Elems(order)`references
      ensures Valid() && handles == stay
      ensures Elems(order) <= old(Elems(order)) && Thinned(order, old(order)) && usedMemory <= old(usedMemory)
      ensures IsPlan(plan, old(order), old(handles)) && |plan| == |IdleSet(old(order), old(handles))|
      ensures order == EvictCount(old(order), old(handles), plan, releases, count)
      ensures old(|order|) <= |order| + count && r == if |order| + count == old(|order|) then Ok else BuffersUsed
      ensures |IdleSet(old(order), old(handles))| < count ==> r == BuffersUsed && order == old(order)
      ensures Unshadowed(old(order), old(handles)) && |IdleSet(old(order), old(handles))| >= count ==>
                r == Ok && Evicted(order, old(order), IdleSet(old(order), old(handles)), plan[..count])
    {
      ghost var was, before := order, handles;
      r, plan := EvictForEntries(count, releases, stay);
      CountFacts(was, before, plan, releases, count);
    }

    /** What `_freeLRUBuffersCount` does, in terms of its plan. */
    method EvictForEntries(count: nat, releases: seq<seq<CacheBuffer>>, ghost stay: multiset<CacheBuffer>)
      returns (r: Status, ghost plan: seq<CacheBuffer>)
      requires Valid() && handles == stay + AllGiven(releases) && count > 0
      modifies this`usedMemory, this`entryCount, this`order, this`handles, table, Elems(order)`references
      ensures Valid() && handles == stay && IsPlan(plan, old(order), old(handles)) && usedMemory <= old(usedMemory)
      ensures order == EvictCount(old(order), old(handles), plan, releases, count)
      ensures old(|order|) <= |order| + count && r == if |order| + count == old(|order|) then Ok else BuffersUsed
    {
      var entries := FindNotUsedLruEntries();
      plan := entries;
      if |entries| < count {
        ReleaseFrom(releases, 0, stay);
        return BuffersUsed, plan;
      }
      var freed, turns := DeletePlanned(entries, count, releases, stay);
      r := if freed < count then BuffersUsed else Ok;
    }

    static lemma CountFacts(s: seq<CacheBuffer>, out: multiset<CacheBuffer>, plan: seq<CacheBuffer>,
                            releases: seq<seq<CacheBuffer>>, count: nat)
      requires NoDup(s) && IsPlan(plan, s, out)
      ensures var left := EvictCount(s, out, plan, releases, count);
              && |plan| == |IdleSet(s, out)| && Elems(left) <= Elems(s) && Thinned(left, s)
              && (|plan| < count ==> left == s)
              && (Unshadowed(s, out) && |plan| >= count ==>
                    |left| + count == |s| && Evicted(left, s, IdleSet(s, out), plan[..count]))
    {
      PlanCounts(s, out, plan);
      ThinnedSelf(s);
      EvictFacts(s, out, plan, releases, count);
      if Unshadowed(s, out) && |plan| >= count {
        UnshadowedEvict(s, out, plan, releases, count);
      }
    }

    // ---- Creation ----

    /** Eviction for `size` more bytes, with the check that follows it. */
    method EvictForMemory(size: nat, releases: seq<seq<CacheBuffer>>,
                          ghost stay: multiset<CacheBuffer>)
      returns (r: Status, ghost plan: seq<CacheBuffer>)
      requires Valid() && handles == stay + AllGiven(releases) && size <= maxBufferSize && usedMemory + size > maxMemory
      modifies this`usedMemory, this`entryCount, this`order, this`handles, table, Elems(order)`references
      ensures Valid() && handles == stay
      ensures IsPlan(plan, old(order), old(handles))
      ensures r == Creation(Bounds(), old(order), old(handles), size, plan, releases).0
      ensures order == Creation(Bounds(), old(order), old(handles), size, plan, releases).1
      ensures r == Ok ==> usedMemory + size <= maxMemory && entryCount < old(entryCount)
    {
      ghost var was, before, victims := order, handles, [];
      var memory := size - (maxMemory - usedMemory);
      r, victims, plan := FreeLruBuffersMemory(memory, releases, stay);
      NoWrap(usedMemory, size);
      CreationForMemory(was, before, size, plan, releases, memory);
      if r != Ok || AddSize(usedMemory, size) > maxMemory {
        r := MemoryLimitExceeded;
      }
    }

    lemma CreationForMemory(s: seq<CacheBuffer>, out: multiset<CacheBuffer>, size: nat, plan: seq<CacheBuffer>,
                            releases: seq<seq<CacheBuffer>>, memory: nat)
      requires size <= maxBufferSize && Memory(s) + size == maxMemory + memory && memory > 0
      ensures var (goal, creation) := (LeastPrefix(plan, memory), Creation(Bounds(), s, out, size, plan, releases));
              && creation.1 == EvictMemory(s, out, plan, releases, memory)
              && creation.0 == if goal > 0 && |creation.1| + goal == |s| && Memory(creation.1) + size <= maxMemory
                               then Ok else MemoryLimitExceeded
    {
    }

    lemma CreationForCount(s: seq<CacheBuffer>, out: multiset<CacheBuffer>, size: nat, plan: seq<CacheBuffer>,
                           releases: seq<seq<CacheBuffer>>, count: nat)
      requires size <= maxBufferSize && Memory(s) + size <= maxMemory && |s| == maxEntries && count == 1
      ensures var (left, creation) := (EvictCount(s, out, plan, releases, count),
                                       Creation(Bounds(), s, out, size, plan, releases));
              && creation.1 == left && creation.0 == (if |left| < |s| then Ok else BufferCountExceeded)
    {
    }

    /** Eviction for one more entry, with the check that follows it. */
    method EvictForCount(size: nat, releases: seq<seq<CacheBuffer>>,
                         ghost stay: multiset<CacheBuffer>)
      returns (r: Status, ghost plan: seq<CacheBuffer>)
      requires Valid() && handles == stay + AllGiven(releases) && maxEntries <= entryCount
      requires size <= maxBufferSize && usedMemory + size <= maxMemory
      modifies this`usedMemory, this`entryCount, this`order, this`handles, table, Elems(order)`references
      ensures Valid() && handles == stay
      ensures IsPlan(plan, old(order), old(handles))
      ensures r == Creation(Bounds(), old(order), old(handles), size, plan, releases).0
      ensures order == Creation(Bounds(), old(order), old(handles), size, plan, releases).1
      ensures r == Ok ==> entryCount < maxEntries && usedMemory <= old(usedMemory)
    {
      ghost var was, before := order, handles;
      var count := maxEntries - entryCount + 1;
      r, plan := FreeLruBuffersCount(count, releases, stay);
      CreationForCount(was, before, size, plan, releases, count);
      if r != Ok || maxEntries <= entryCount {
        r := BufferCountExceeded;
      }
    }

    lemma SomePlan() returns (plan: seq<CacheBuffer>)
      requires Valid()
      ensures IsPlan(plan, order, handles)
    {
      plan := YoungestFirst(order, handles);
      YoungestFirstIsPlan(order, handles);
    }

    /** The limit checks of `CreateBuffer`, with the evictions they trigger. */
    method MakeRoom(size: nat, releases: seq<seq<CacheBuffer>>,
                    ghost stay: multiset<CacheBuffer>)
      returns (r: Status, ghost plan: seq<CacheBuffer>)
      requires Valid() && handles == stay + AllGiven(releases)
      modifies this`usedMemory, this`entryCount, this`order, this`handles, table, Elems(order)`references
      ensures Valid() && handles == stay
      ensures IsPlan(plan, old(order), old(handles))
      ensures r == Creation(Bounds(), old(order), old(handles), size, plan, releases).0
      ensures order == Creation(Bounds(), old(order), old(handles), size, plan, releases).1
      ensures r == Ok ==> size <= maxBufferSize && usedMemory + size <= maxMemory && entryCount < maxEntries
    {
      r := Ok;
      NoWrap(usedMemory, if size <= maxBufferSize then size else 0);
      if maxBufferSize < size {
        r := BufferSizeLimit;
        plan := SomePlan();
        ReleaseFrom(releases, 0, stay);
      } else if AddSize(usedMemory, size) > maxMemory {
        r, plan := EvictForMemory(size, releases, stay);
        if r == Ok && maxEntries <= entryCount {
          assert false;
        }
      } else if maxEntries <= entryCount {
        r, plan := EvictForCount(size, releases, stay);
      } else {
        plan := SomePlan();
        ReleaseFrom(releases, 0, stay);
      }
    }

    /** The end of `CreateBuffer`: the new node goes to the end of its chain. */
    method AppendNode(key: CString, size: nat, stamp: int) returns (b: CacheBuffer)
      requires Valid() && size <= maxBufferSize
      requires usedMemory + size <= maxMemory && entryCount < maxEntries
      modifies this`usedMemory, this`entryCount, this`order, this`history, table
      ensures Valid() && order == old(order) + [b] && history == old(history) + [b]
      ensures fresh(b) && b.key == key && b.size == size
      ensures b.data == [] && b.references == 0 && b.lastReference == stamp
    {
      b := new CacheBuffer(key, size, stamp);
      var h := Djb2(b.key, table.Length);
      ghost var chains := table[..][h := table[h] + [b]];
      RepresentsSnoc(table[..], order, b);
      MemorySnoc(order, b);
      ElemsSnoc(history, b);
      ThinnedSnoc(order, history, b);
      table[h] := table[h] + [b];
      entryCount := entryCount + 1;
      usedMemory := AddSize(usedMemory, size);
      order, history := order + [b], history + [b];
      assert table[..] == chains;
    }

    /**
     `CreateBuffer`. When no unreferenced buffer is shadowed it is all-or-nothing: the answer depends
     only on the limits and on what was unreferenced on entry, whatever is released meanwhile; an error
     leaves every entry in place; success removes exactly the least recently used entries that were
     needed and appends the new one. In every case the counters, limits and handles stay right, the buffers
     that stay keep their order, and a request that cannot be met is refused and changes nothing.
     It needs the manager mutex free and leaves it free: the source takes it at the start and gives it back
     on every path, which is one step here. `releases` are the handles that other threads give back meanwhile, `stay`
     those that remain out.
     */
    method CreateBuffer(key: CString, size: nat, stamp: int, releases: seq<seq<CacheBuffer>>,
                        ghost stay: multiset<CacheBuffer>)
      returns (r: Status, created: CacheBuffer?, ghost kept: seq<CacheBuffer>, ghost victims: seq<CacheBuffer>,
               ghost plan: seq<CacheBuffer>)
      requires Valid() && !locked && handles == stay + AllGiven(releases)
      modifies this`usedMemory, this`entryCount, this`order, this`history, this`handles, table, Elems(order)`references
      ensures Valid() && !locked && handles == stay
      ensures r == Ok <==> created != null
      ensures created != null ==> fresh(created) && created.key == key && created.size == size
      ensures created != null ==> created.data == [] && created.references == 0 && created.lastReference == stamp
      ensures order == if created == null then kept else kept + [created]
      ensures Elems(kept) <= old(Elems(order)) && Thinned(kept, old(order))
      ensures history == old(history) + if created == null then [] else [created]
      ensures IsPlan(plan, old(order), old(handles))
      ensures (r, kept) == Creation(Bounds(), old(order), old(handles), size, plan, releases)
      ensures var verdict := Verdict(Bounds(), old(order), old(handles), size);
              && (verdict != Ok ==> r == verdict && order == old(order))
              && (Unshadowed(old(order), old(handles)) ==> r == verdict)
      ensures Unshadowed(old(order), old(handles)) ==>
                && Evicted(kept, old(order), IdleSet(old(order), old(handles)), victims)
                && if r == Ok then NoMoreThanNeeded(Bounds(), victims, size, old(usedMemory), old(|order|))
                   else order == old(order)
    {
      ghost var was, before := order, handles;
      r, created, kept, plan := CreateNode(key, size, stamp, releases, stay);
      victims := CreationClauses(was, before, size, plan, releases);
    }

    /** What `CreateBuffer` does, in terms of its plan. */
    method CreateNode(key: CString, size: nat, stamp: int, releases: seq<seq<CacheBuffer>>,
                      ghost stay: multiset<CacheBuffer>)
      returns (r: Status, created: CacheBuffer?, ghost kept: seq<CacheBuffer>, ghost plan: seq<CacheBuffer>)
      requires Valid() && !locked && handles == stay + AllGiven(releases)
      modifies this`usedMemory, this`entryCount, this`order, this`history, this`handles, table, Elems(order)`references
      ensures Valid() && !locked && handles == stay
      ensures r == Ok <==> created != null
      ensures created != null ==> fresh(created) && created.key == key && created.size == size
      ensures created != null ==> created.data == [] && created.references == 0 && created.lastReference == stamp
      ensures order == if created == null then kept else kept + [created]
      ensures history == old(history) + if created == null then [] else [created]
      ensures IsPlan(plan, old(order), old(handles))
      ensures r == Creation(Bounds(), old(order), old(handles), size, plan, releases).0
      ensures kept == Creation(Bounds(), old(order), old(handles), size, plan, releases).1
    {
      r, plan := MakeRoom(size, releases, stay);
      kept, created := order, null;
      if r == Ok {
        created := AppendNode(key, size, stamp);
      }
    }

    lemma CreationClauses(s: seq<CacheBuffer>, out: multiset<CacheBuffer>, size: nat, plan: seq<CacheBuffer>,
                          releases: seq<seq<CacheBuffer>>)
      returns (victims: seq<CacheBuffer>)
      requires Within(Bounds(), s) && IsPlan(plan, s, out)
      ensures var (r, left) := Creation(Bounds(), s, out, size, plan, releases);
              && Elems(left) <= Elems(s) && Thinned(left, s)
              && (Verdict(Bounds(), s, out, size) != Ok ==> r == Verdict(Bounds(), s, out, size) && left == s)
              && (Unshadowed(s, out) ==>
                    && r == Verdict(Bounds(), s, out, size) && Evicted(left, s, IdleSet(s, out), victims)
                    && (if r == Ok then NoMoreThanNeeded(Bounds(), victims, size, Memory(s), |s|) else left == s))
    {
      victims := [];
      CreationFacts(Bounds(), s, out, size, plan, releases);
      if Verdict(Bounds(), s, out, size) != Ok {
        RefusalIsFinal(Bounds(), s, out, size, plan, releases);
      }
      if Unshadowed(s, out) {
        victims := CreationIsExact(Bounds(), s, out, size, plan, releases);
      }
    }
  }
}
