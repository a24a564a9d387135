/**
 The theory of planned eviction: a plan lists the unreferenced buffers, oldest reference first, and is
 carried out by deleting keys one by one. When do those deletions remove exactly what was planned? Throughout,
 `out` are the handles that are out; a buffer is referenced when a handle on it is.
 */
module EvictionPlan {
  import opened CBytes
  import opened Collections
  import opened Association

  ghost predicate ByLastReference(s: seq<CacheBuffer>)
    reads s`lastReference
  {
    forall i, j :: 0 <= i < j < |s| ==> s[i].lastReference <= s[j].lastReference
  }

  /** `plan` is the sorted list of the unreferenced buffers of `s`; ties may come in any order. */
  ghost predicate IsPlan(plan: seq<CacheBuffer>, s: seq<CacheBuffer>, out: multiset<CacheBuffer>)
    reads plan`lastReference
  {
    && NoDup(plan) && ByLastReference(plan)
    && (forall b | b in plan :: b in s && out[b] == 0)
    && (forall b | b in s && out[b] == 0 :: b in plan)
  }

  /** An unreferenced buffer follows no same-key buffer, except unreferenced ones used strictly earlier. */
  ghost predicate Unshadowed(s: seq<CacheBuffer>, out: multiset<CacheBuffer>)
    reads s`lastReference
  {
    forall i, j :: 0 <= i < j < |s| && s[i].key == s[j].key && out[s[j]] == 0 ==>
      out[s[i]] == 0 && s[i].lastReference < s[j].lastReference
  }

  /** Effect of one `_DeleteBuffer(key)`: the oldest buffer with the key goes, unless it is referenced. */
  ghost function Attempt(s: seq<CacheBuffer>, key: CString, out: multiset<CacheBuffer>): seq<CacheBuffer>
  {
    if Present(s, key) && out[First(s, key)] == 0 then Delete(s, key) else s
  }

  /** `_DeleteBuffer` applied to the keys of the first `m` planned buffers, undisturbed. */
  ghost function RunPlan(s: seq<CacheBuffer>, plan: seq<CacheBuffer>, m: nat, out: multiset<CacheBuffer>):
    seq<CacheBuffer>
    requires m <= |plan|
  {
    if m == 0 then s else Attempt(RunPlan(s, plan, m - 1, out), plan[m - 1].key, out)
  }

  /** Each planned key denotes the planned buffer once the earlier planned buffers are gone. */
  ghost predicate Faithful(s: seq<CacheBuffer>, plan: seq<CacheBuffer>) {
    forall i :: 0 <= i < |plan| ==> FaithfulAt(s, plan, i)
  }

  ghost predicate FaithfulAt(s: seq<CacheBuffer>, plan: seq<CacheBuffer>, i: nat)
    requires i < |plan|
  {
    Denotes(Minus(s, Elems(plan[..i])), plan[i])
  }

  ghost predicate Denotes(s: seq<CacheBuffer>, b: CacheBuffer) {
    Present(s, b.key) && First(s, b.key) == b
  }

  /** Removing a planned buffer by key extends the removed prefix by one. */
  lemma ExtendPrefix(s: seq<CacheBuffer>, plan: seq<CacheBuffer>, i: nat)
    requires NoDup(s) && i < |plan| && FaithfulAt(s, plan, i)
    ensures Delete(Minus(s, Elems(plan[..i])), plan[i].key) == Minus(s, Elems(plan[..i + 1]))
  {
    ElemsPrefix(plan, i);
    MinusNoDup(s, Elems(plan[..i]));
    MinusTwice(s, Elems(plan[..i]), {plan[i]});
    DeleteIsMinus(Minus(s, Elems(plan[..i])), plan[i].key);
  }

  lemma ElemsPrefix(plan: seq<CacheBuffer>, i: nat)
    requires i < |plan|
    ensures Elems(plan[..i + 1]) == Elems(plan[..i]) + {plan[i]}
  {
    assert plan[..i + 1] == plan[..i] + [plan[i]];
  }

  /** `b` is the first with its key in what remains, if every earlier buffer with that key is gone. */
  lemma {:induction false} FirstRemaining(s: seq<CacheBuffer>, gone: set<CacheBuffer>, j: nat)
    requires NoDup(s) && j < |s| && s[j] !in gone
    requires forall i :: 0 <= i < j && s[i].key == s[j].key ==> s[i] in gone
    ensures Denotes(Minus(s, gone), s[j])
  {
    var p, b := s[..|s| - 1], s[|s| - 1];
    var key := s[j].key;
    if j == |p| {
      var r := Minus(p, gone);
      assert Minus(s, gone) == r + [b];
      SnocPrefix(r, b);
      assert Present(r, key) ==> First(r, key) in r;
    } else {
      FirstRemaining(p, gone, j);
      if b !in gone {
        SnocPrefix(Minus(p, gone), b);
      }
    }
  }

  /** Conversely, a buffer that survives in front of `b` with its key hides `b`. */
  lemma {:induction false} Hidden(s: seq<CacheBuffer>, gone: set<CacheBuffer>, i: nat, j: nat)
    requires NoDup(s) && i < j < |s| && s[i].key == s[j].key && s[i] !in gone && s[j] !in gone
    ensures !Denotes(Minus(s, gone), s[j])
    ensures Present(Minus(s, gone), s[j].key)
  {
    var p, b := s[..|s| - 1], s[|s| - 1];
    if j == |p| {
      var r := Minus(p, gone);
      assert Minus(s, gone) == r + [b];
      SnocPrefix(r, b);
      assert s[i] in r;
      assert Present(r, s[i].key);
      assert First(r, s[i].key) in p;
    } else {
      Hidden(p, gone, i, j);
      if b !in gone {
        SnocPrefix(Minus(p, gone), b);
      }
    }
  }

  lemma EarlierSameKeyGone(s: seq<CacheBuffer>, plan: seq<CacheBuffer>, m: nat, i: nat, j: nat,
                           out: multiset<CacheBuffer>)
    requires IsPlan(plan, s, out) && Unshadowed(s, out) && m < |plan|
    requires i < j < |s| && s[j] == plan[m] && s[i].key == s[j].key
    ensures s[i] in Elems(plan[..m])
  {
    assert plan[m] in plan && s[i] in s;
    assert s[i] in plan;
    var k :| 0 <= k < |plan| && plan[k] == s[i];
    assert k < m;
    assert plan[..m][k] == s[i];
  }

  lemma PlannedDenotes(s: seq<CacheBuffer>, plan: seq<CacheBuffer>, m: nat, out: multiset<CacheBuffer>)
    requires NoDup(s) && IsPlan(plan, s, out) && Unshadowed(s, out) && m < |plan|
    ensures Denotes(Minus(s, Elems(plan[..m])), plan[m])
  {
    NoDupAt(plan, m);
    assert plan[m] in plan;
    var j :| 0 <= j < |s| && s[j] == plan[m];
    forall i | 0 <= i < j && s[i].key == s[j].key
      ensures s[i] in Elems(plan[..m])
    {
      EarlierSameKeyGone(s, plan, m, i, j, out);
    }
    FirstRemaining(s, Elems(plan[..m]), j);
  }

  lemma PlanIsFaithful(s: seq<CacheBuffer>, plan: seq<CacheBuffer>, out: multiset<CacheBuffer>)
    requires NoDup(s) && IsPlan(plan, s, out) && Unshadowed(s, out)
    ensures Faithful(s, plan)
  {
    forall m | 0 <= m < |plan|
      ensures FaithfulAt(s, plan, m)
    {
      PlannedDenotes(s, plan, m, out);
    }
  }

  lemma RunOneMore(s: seq<CacheBuffer>, plan: seq<CacheBuffer>, m: nat, out: multiset<CacheBuffer>)
    requires NoDup(s) && m < |plan| && RunPlan(s, plan, m, out) == Minus(s, Elems(plan[..m]))
    requires FaithfulAt(s, plan, m) && out[plan[m]] == 0
    ensures RunPlan(s, plan, m + 1, out) == Minus(s, Elems(plan[..m + 1]))
  {
    ExtendPrefix(s, plan, m);
  }

  lemma {:induction false} FaithfulRun(s: seq<CacheBuffer>, plan: seq<CacheBuffer>, m: nat, out: multiset<CacheBuffer>)
    requires NoDup(s) && m <= |plan| && Faithful(s, plan)
    requires forall i :: 0 <= i < |plan| ==> out[plan[i]] == 0
    ensures RunPlan(s, plan, m, out) == Minus(s, Elems(plan[..m]))
  {
    if m == 0 {
      MinusNone(s, Elems(plan[..0]));
    } else {
      FaithfulRun(s, plan, m - 1, out);
      RunOneMore(s, plan, m - 1, out);
    }
  }

  // ---- A plan that breaks ties against the older buffer ----

  /** Where `b` goes in a sorted list, in front of its equals. */
  ghost function Rank(t: seq<CacheBuffer>, b: CacheBuffer): (k: nat)
    reads t`lastReference, b`lastReference
    ensures k <= |t|
    ensures forall i :: 0 <= i < k ==> t[i].lastReference < b.lastReference
    ensures k < |t| ==> b.lastReference <= t[k].lastReference
  {
    if t == [] || b.lastReference <= t[0].lastReference then 0 else 1 + Rank(t[1..], b)
  }

  ghost function InsertAt(t: seq<CacheBuffer>, b: CacheBuffer, k: nat): (r: seq<CacheBuffer>)
    requires k <= |t|
    ensures |r| == |t| + 1 && r[k] == b
    ensures forall i :: 0 <= i < k ==> r[i] == t[i]
    ensures forall i :: k <= i < |t| ==> r[i + 1] == t[i]
  {
    t[..k] + [b] + t[k..]
  }

  lemma InsertMembers(t: seq<CacheBuffer>, b: CacheBuffer, k: nat)
    requires k <= |t|
    ensures forall c :: c in InsertAt(t, b, k) <==> c in t || c == b
  {}

  lemma {:induction false} InsertNoDup(t: seq<CacheBuffer>, b: CacheBuffer, k: nat)
    requires k <= |t| && NoDup(t) && b !in t
    ensures NoDup(InsertAt(t, b, k))
  {
    if k == |t| {
      assert InsertAt(t, b, k) == t + [b];
      ElemsSnoc(t, b);
    } else {
      var p, c := t[..|t| - 1], t[|t| - 1];
      InsertNoDup(p, b, k);
      InsertMembers(p, b, k);
      ElemsSnoc(InsertAt(p, b, k), c);
      assert InsertAt(t, b, k) == InsertAt(p, b, k) + [c];
    }
  }

  lemma InsertSorted(t: seq<CacheBuffer>, b: CacheBuffer, k: nat)
    requires ByLastReference(t) && k <= |t|
    requires forall i :: 0 <= i < k ==> t[i].lastReference < b.lastReference
    requires k < |t| ==> b.lastReference <= t[k].lastReference
    ensures ByLastReference(InsertAt(t, b, k))
  {
    var r := InsertAt(t, b, k);
    forall i, j | 0 <= i < j < |r|
      ensures r[i].lastReference <= r[j].lastReference
    {
      assert i > k ==> r[i] == t[i - 1];
      assert j > k ==> r[j] == t[j - 1];
    }
  }

  /** Insertion sort of the unreferenced buffers, later creations in front among equal time stamps. */
  ghost function YoungestFirst(s: seq<CacheBuffer>, out: multiset<CacheBuffer>): (plan: seq<CacheBuffer>)
    reads s`lastReference
    ensures forall b | b in plan :: b in s
  {
    if s == [] then []
    else
      var p, b := s[..|s| - 1], s[|s| - 1];
      var t := YoungestFirst(p, out);
      assert forall c | c in p :: c in s;
      assert forall i :: 0 <= i < |t| ==> t[i] in s;
      if out[b] == 0 then InsertAt(t, b, Rank(t, b)) else t
  }

  lemma {:induction false} YoungestFirstIsPlan(s: seq<CacheBuffer>, out: multiset<CacheBuffer>)
    requires NoDup(s)
    ensures IsPlan(YoungestFirst(s, out), s, out)
  {
    if s != [] {
      var p, b := s[..|s| - 1], s[|s| - 1];
      YoungestFirstIsPlan(p, out);
      var t := YoungestFirst(p, out);
      if out[b] == 0 {
        InsertMembers(t, b, Rank(t, b));
        InsertNoDup(t, b, Rank(t, b));
        InsertSorted(t, b, Rank(t, b));
      }
    }
  }

  ghost predicate Before(t: seq<CacheBuffer>, b: CacheBuffer, a: CacheBuffer) {
    exists k :: 0 <= k < |t| && t[k] == b && a !in t[..k]
  }

  lemma InsertComesBefore(t: seq<CacheBuffer>, b: CacheBuffer, a: CacheBuffer)
    requires a != b && ByLastReference(t)
    requires a !in t || a.lastReference >= b.lastReference
    ensures Before(InsertAt(t, b, Rank(t, b)), b, a)
  {
    var k := Rank(t, b);
    assert InsertAt(t, b, k)[..k] == t[..k];
    assert forall q :: 0 <= q < k ==> t[..k][q] in t && t[..k][q] != a;
  }

  lemma InsertKeepsBefore(t: seq<CacheBuffer>, b: CacheBuffer, q: nat, x: CacheBuffer, a: CacheBuffer)
    requires q <= |t| && Before(t, x, a) && b != a
    ensures Before(InsertAt(t, b, q), x, a)
  {
    var r := InsertAt(t, b, q);
    var k :| 0 <= k < |t| && t[k] == x && a !in t[..k];
    if q <= k {
      assert r[k + 1] == x && r[..k + 1] == t[..q] + [b] + t[q..k];
      assert t[..k] == t[..q] + t[q..k];
    } else {
      assert r[k] == x && r[..k] == t[..k];
    }
  }

  lemma {:induction false} TieBrokenAgainst(s: seq<CacheBuffer>, i: nat, j: nat, out: multiset<CacheBuffer>)
    requires NoDup(s) && i < j < |s| && out[s[j]] == 0
    requires out[s[i]] != 0 || s[i].lastReference >= s[j].lastReference
    ensures Before(YoungestFirst(s, out), s[j], s[i])
  {
    var p, b := s[..|s| - 1], s[|s| - 1];
    var t := YoungestFirst(p, out);
    YoungestFirstIsPlan(p, out);
    if j == |p| {
      InsertComesBefore(t, b, s[i]);
    } else {
      TieBrokenAgainst(p, i, j, out);
      if out[b] == 0 {
        InsertKeepsBefore(t, b, Rank(t, b), s[j], s[i]);
      }
    }
  }

  // ---- When eviction by key is exact ----

  /** Deleting by key cannot remove a buffer that another one hides. */
  lemma AttemptMissesHidden(s: seq<CacheBuffer>, b: CacheBuffer, out: multiset<CacheBuffer>)
    requires NoDup(s) && b in s && Present(s, b.key) && !Denotes(s, b)
    ensures b in Attempt(s, b.key, out)
  {
    DeleteIsMinus(s, b.key);
  }

  lemma ShadowedPlanMisses(s: seq<CacheBuffer>, i: nat, j: nat, plan: seq<CacheBuffer>,
                           out: multiset<CacheBuffer>)
    returns (m: nat)
    requires NoDup(s) && i < j < |s| && s[i].key == s[j].key && out[s[j]] == 0
    requires Before(plan, s[j], s[i]) && NoDup(plan)
    ensures m <= |plan| && RunPlan(s, plan, m, out) != Minus(s, Elems(plan[..m]))
  {
    var k :| 0 <= k < |plan| && plan[k] == s[j] && s[i] !in plan[..k];
    var gone := Elems(plan[..k]);
    if RunPlan(s, plan, k, out) != Minus(s, gone) {
      m := k;
    } else {
      m := k + 1;
      NoDupAt(plan, k);
      MinusNoDup(s, gone);
      Hidden(s, gone, i, j);
      AttemptMissesHidden(Minus(s, gone), s[j], out);
      ElemsPrefix(plan, k);
    }
  }

  /**
   Eviction by key removes exactly the planned buffers, for every tie-breaking of the sort and every
   length of the prefix that is carried out, if and only if no unreferenced buffer is shadowed.
   */
  lemma ExactEviction(s: seq<CacheBuffer>, out: multiset<CacheBuffer>)
    requires NoDup(s)
    ensures Unshadowed(s, out) <==>
            forall plan | IsPlan(plan, s, out) :: forall m :: 0 <= m <= |plan| ==>
              RunPlan(s, plan, m, out) == Minus(s, Elems(plan[..m]))
  {
    if Unshadowed(s, out) {
      forall plan | IsPlan(plan, s, out)
        ensures forall m :: 0 <= m <= |plan| ==> RunPlan(s, plan, m, out) == Minus(s, Elems(plan[..m]))
      {
        PlanIsFaithful(s, plan, out);
        assert forall i :: 0 <= i < |plan| ==> plan[i] in plan;
        forall m | 0 <= m <= |plan|
          ensures RunPlan(s, plan, m, out) == Minus(s, Elems(plan[..m]))
        {
          FaithfulRun(s, plan, m, out);
        }
      }
    } else {
      var i, j :| 0 <= i < j < |s| && s[i].key == s[j].key && out[s[j]] == 0 &&
        !(out[s[i]] == 0 && s[i].lastReference < s[j].lastReference);
      YoungestFirstIsPlan(s, out);
      TieBrokenAgainst(s, i, j, out);
      var m := ShadowedPlanMisses(s, i, j, YoungestFirst(s, out), out);
    }
  }

  lemma DistinctKeysAreUnshadowed(s: seq<CacheBuffer>, out: multiset<CacheBuffer>)
    requires DistinctKeys(s)
    ensures Unshadowed(s, out)
  {}

  // ---- Least recently used, and no more than needed ----

  ghost function IdleSet(s: seq<CacheBuffer>, out: multiset<CacheBuffer>): set<CacheBuffer>
  {
    set b | b in s && out[b] == 0
  }

  /** `victims` are taken from `idle`, and no buffer left in `idle` was used earlier than any of them. */
  ghost predicate LeastRecentlyUsed(idle: set<CacheBuffer>, victims: seq<CacheBuffer>)
    reads idle`lastReference, victims`lastReference
  {
    && NoDup(victims) && Elems(victims) <= idle
    && (forall v, t | v in victims && t in idle && t !in victims :: v.lastReference <= t.lastReference)
  }

  lemma PrefixIsLeastRecentlyUsed(s: seq<CacheBuffer>, plan: seq<CacheBuffer>, m: nat, out: multiset<CacheBuffer>)
    requires IsPlan(plan, s, out) && m <= |plan|
    ensures LeastRecentlyUsed(IdleSet(s, out), plan[..m])
  {
    if m < |plan| {
      NoDupAt(plan, m);
    } else {
      assert plan[..m] == plan;
    }
    forall v, t | v in plan[..m] && t in IdleSet(s, out) && t !in plan[..m]
      ensures v.lastReference <= t.lastReference
    {
      var i :| 0 <= i < m && plan[i] == v;
      var k :| 0 <= k < |plan| && plan[k] == t;
      assert forall q :: 0 <= q < m ==> plan[q] in plan[..m];
    }
  }

  /** Memory held by the unreferenced buffers. */
  ghost function IdleMemory(s: seq<CacheBuffer>, out: multiset<CacheBuffer>): nat
  {
    if s == [] then 0
    else IdleMemory(s[..|s| - 1], out) + if out[s[|s| - 1]] == 0 then s[|s| - 1].size else 0
  }

  lemma IdleSetSnoc(p: seq<CacheBuffer>, b: CacheBuffer, out: multiset<CacheBuffer>)
    ensures IdleSet(p + [b], out) == if out[b] == 0 then IdleSet(p, out) + {b} else IdleSet(p, out)
  {}

  lemma {:induction false} PlanMemory(s: seq<CacheBuffer>, plan: seq<CacheBuffer>, out: multiset<CacheBuffer>)
    requires NoDup(s) && NoDup(plan) && Elems(plan) == IdleSet(s, out)
    ensures Memory(plan) == IdleMemory(s, out)
  {
    if s == [] {
      assert forall k :: 0 <= k < |plan| ==> plan[k] in Elems(plan);
    } else {
      var p, b := s[..|s| - 1], s[|s| - 1];
      assert s == p + [b];
      IdleSetSnoc(p, b, out);
      if out[b] == 0 {
        assert b in Elems(plan);
        var k :| 0 <= k < |plan| && plan[k] == b;
        var rest := RemoveAt(plan, k);
        MemoryRemoveAt(plan, k);
        MinusOne(plan, k);
        MinusNoDup(plan, {b});
        assert Elems(rest) == Elems(plan) - {b};
        PlanMemory(p, rest, out);
      } else {
        PlanMemory(p, plan, out);
      }
    }
  }

  lemma {:induction false} IdleMemoryBound(s: seq<CacheBuffer>, out: multiset<CacheBuffer>)
    ensures IdleMemory(s, out) <= Memory(s)
  {
    if s != [] {
      IdleMemoryBound(s[..|s| - 1], out);
    }
  }

  /** `m` is the least number of leading plan entries whose sizes add up to `need`. */
  ghost predicate ShortestPrefix(plan: seq<CacheBuffer>, m: nat, need: nat) {
    0 < m <= |plan| && Memory(plan[..m - 1]) < need <= Memory(plan[..m])
  }

  lemma ShortestPrefixItself(plan: seq<CacheBuffer>, m: nat, need: nat)
    requires ShortestPrefix(plan, m, need)
    ensures ShortestPrefix(plan[..m], m, need)
  {
    assert plan[..m][..m - 1] == plan[..m - 1];
    assert plan[..m][..m] == plan[..m];
  }

  lemma MemoryPrefix(s: seq<CacheBuffer>, i: nat)
    requires i < |s|
    ensures Memory(s[..i + 1]) == Memory(s[..i]) + s[i].size <= Memory(s)
  {
    assert s[..i + 1] == s[..i] + [s[i]];
    MemorySnoc(s[..i], s[i]);
    MemoryConcat(s[..i + 1], s[i + 1..]);
    assert s == s[..i + 1] + s[i + 1..];
  }
}
