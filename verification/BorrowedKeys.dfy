/**
 The plan of src/cache/cache.c borrows its keys: each entry points to the key inside its buffer. When is that
 buffer, and with it the key, already freed at the entry's turn?
 */
module BorrowedKeys {
  import opened CBytes
  import opened Collections
  import opened Association
  import opened EvictionPlan

  /** At turn `m` of an undisturbed run the planned buffer has been deleted already. */
  ghost predicate ReadsFreedKey(s: seq<CacheBuffer>, plan: seq<CacheBuffer>, m: nat, out: multiset<CacheBuffer>)
    requires m < |plan|
  {
    plan[m] !in RunPlan(s, plan, m, out)
  }

  /** `s[i]` and every buffer with its key before it are unreferenced. */
  ghost predicate InFront(s: seq<CacheBuffer>, i: nat, out: multiset<CacheBuffer>)
    requires i < |s|
  {
    forall k :: 0 <= k <= i && s[k].key == s[i].key ==> out[s[k]] == 0
  }

  /** A buffer that deletions by its key can get to was used strictly before any later unreferenced one. */
  ghost predicate FrontInOrder(s: seq<CacheBuffer>, out: multiset<CacheBuffer>)
    reads s`lastReference
  {
    forall i, j :: 0 <= i < j < |s| && s[i].key == s[j].key && InFront(s, i, out) && out[s[j]] == 0 ==>
      s[i].lastReference < s[j].lastReference
  }

  // ---- Runs only lose buffers ----

  lemma {:induction false} RunThins(s: seq<CacheBuffer>, plan: seq<CacheBuffer>, m: nat, out: multiset<CacheBuffer>)
    requires NoDup(s) && m <= |plan|
    ensures NoDup(RunPlan(s, plan, m, out)) && Thinned(RunPlan(s, plan, m, out), s)
  {
    if m == 0 {
      ThinnedSelf(s);
    } else {
      var r, key := RunPlan(s, plan, m - 1, out), plan[m - 1].key;
      RunThins(s, plan, m - 1, out);
      DeleteMembers(r, key);
      ThinnedDelete(r, key);
      ThinnedTwice(Delete(r, key), r, s);
    }
  }

  lemma {:induction false} RunShrinks(s: seq<CacheBuffer>, plan: seq<CacheBuffer>, m: nat, n: nat,
                                      out: multiset<CacheBuffer>)
    requires NoDup(s) && m <= n <= |plan|
    ensures Elems(RunPlan(s, plan, n, out)) <= Elems(RunPlan(s, plan, m, out))
  {
    if m < n {
      RunShrinks(s, plan, m, n - 1, out);
      RunThins(s, plan, n - 1, out);
      DeleteMembers(RunPlan(s, plan, n - 1, out), plan[n - 1].key);
    }
  }

  /** What a turn deletes: the first of what is left with the key, if it is unreferenced. */
  lemma TurnDeletes(s: seq<CacheBuffer>, plan: seq<CacheBuffer>, m: nat, out: multiset<CacheBuffer>)
    requires NoDup(s) && m < |plan|
    ensures var (r, key) := (RunPlan(s, plan, m, out), plan[m].key);
            Elems(RunPlan(s, plan, m + 1, out)) ==
            Elems(r) - if Present(r, key) && out[First(r, key)] == 0 then {First(r, key)} else {}
  {
    RunThins(s, plan, m, out);
    DeleteMembers(RunPlan(s, plan, m, out), plan[m].key);
  }

  /** Where the first of a thinned sequence stands in the whole one: all before it with its key are gone. */
  lemma FirstStandsAt(r: seq<CacheBuffer>, s: seq<CacheBuffer>, key: CString) returns (k: nat)
    requires NoDup(s) && Thinned(r, s) && Present(r, key)
    ensures k < |s| && s[k] == First(r, key) && s[k].key == key && s[k] in r
    ensures forall i :: 0 <= i < k && s[i].key == key ==> s[i] !in r
  {
    var gone := Elems(s) - Elems(r);
    ThinnedIsMinus(r, s);
    LookupOldestLeft(s, gone, key);
    k :| 0 <= k < |s| && s[k] == First(r, key) && OldestLeftAt(s, gone, key, k);
    forall i | 0 <= i < k && s[i].key == key
      ensures s[i] !in r
    {
      assert s[i] in gone;
    }
  }

  lemma MemberIsPresent(r: seq<CacheBuffer>, b: CacheBuffer)
    requires b in r
    ensures Present(r, b.key)
  {
  }

  // ---- In order, no freed key is read ----

  /** What an undisturbed run has deleted after `m` turns was planned for these turns. */
  lemma {:induction false} DeletedWerePlanned(s: seq<CacheBuffer>, plan: seq<CacheBuffer>, m: nat,
                                              out: multiset<CacheBuffer>)
    requires NoDup(s) && IsPlan(plan, s, out) && FrontInOrder(s, out) && m <= |plan|
    ensures forall b | b in s && b !in RunPlan(s, plan, m, out) :: b in plan[..m]
  {
    if m > 0 {
      var r, key := RunPlan(s, plan, m - 1, out), plan[m - 1].key;
      DeletedWerePlanned(s, plan, m - 1, out);
      TurnDeletes(s, plan, m - 1, out);
      assert plan[..m] == plan[..m - 1] + [plan[m - 1]];
      if Present(r, key) && out[First(r, key)] == 0 {
        VictimWasPlanned(s, plan, m - 1, out);
      }
      forall b | b in s && b !in RunPlan(s, plan, m, out)
        ensures b in plan[..m]
      {
        if b in r {
          assert b in Elems(r) && b !in Elems(RunPlan(s, plan, m, out));
        }
      }
    }
  }

  lemma VictimWasPlanned(s: seq<CacheBuffer>, plan: seq<CacheBuffer>, m: nat, out: multiset<CacheBuffer>)
    requires NoDup(s) && IsPlan(plan, s, out) && FrontInOrder(s, out) && m < |plan|
    requires forall b | b in s && b !in RunPlan(s, plan, m, out) :: b in plan[..m]
    requires Present(RunPlan(s, plan, m, out), plan[m].key) && out[First(RunPlan(s, plan, m, out), plan[m].key)] == 0
    ensures First(RunPlan(s, plan, m, out), plan[m].key) in plan[..m + 1]
  {
    var r, key := RunPlan(s, plan, m, out), plan[m].key;
    RunThins(s, plan, m, out);
    NoDupAt(plan, m);
    assert plan[m] in plan;
    var k := FirstStandsAt(r, s, key);
    if s[k] != plan[m] {
      var j :| 0 <= j < |s| && s[j] == plan[m];
      ReachedFront(s, plan, r, m, k, out);
      assert k < j;
      EarlierInPlan(s, plan, k, m, out);
    }
    PrefixGrows(plan, m, s[k]);
  }

  lemma PrefixGrows(plan: seq<CacheBuffer>, m: nat, b: CacheBuffer)
    requires m < |plan|
    ensures b in plan[..m + 1] <==> b in plan[..m] || b == plan[m]
  {
    assert plan[..m + 1] == plan[..m] + [plan[m]];
  }

  /** What deletions get to has nothing but deleted, hence unreferenced, buffers with its key before it. */
  lemma ReachedFront(s: seq<CacheBuffer>, plan: seq<CacheBuffer>, r: seq<CacheBuffer>, m: nat, k: nat,
                     out: multiset<CacheBuffer>)
    requires IsPlan(plan, s, out) && m < |plan| && k < |s| && out[s[k]] == 0
    requires forall b | b in s && b !in r :: b in plan[..m]
    requires forall i :: 0 <= i < k && s[i].key == s[k].key ==> s[i] !in r
    ensures InFront(s, k, out)
  {
    forall i | 0 <= i < k && s[i].key == s[k].key
      ensures out[s[i]] == 0
    {
      assert s[i] in plan[..m];
    }
  }

  lemma EarlierInPlan(s: seq<CacheBuffer>, plan: seq<CacheBuffer>, k: nat, m: nat, out: multiset<CacheBuffer>)
    requires IsPlan(plan, s, out) && k < |s| && m < |plan| && out[s[k]] == 0
    requires s[k].lastReference < plan[m].lastReference
    ensures s[k] in plan[..m]
  {
    assert s[k] in plan;
    var q :| 0 <= q < |plan| && plan[q] == s[k];
    assert q < m;
    assert plan[..m][q] == s[k];
  }

  lemma NoFreedKey(s: seq<CacheBuffer>, plan: seq<CacheBuffer>, m: nat, out: multiset<CacheBuffer>)
    requires NoDup(s) && IsPlan(plan, s, out) && FrontInOrder(s, out) && m < |plan|
    ensures !ReadsFreedKey(s, plan, m, out)
  {
    DeletedWerePlanned(s, plan, m, out);
    NoDupAt(plan, m);
    assert plan[m] in plan;
  }

  // ---- Out of order, some plan reads one ----

  /** A turn that deletes a front buffer which is not its own leads to the read of a freed key. */
  lemma {:induction false} WrongVictim(s: seq<CacheBuffer>, plan: seq<CacheBuffer>, k: nat, t: nat,
                                       out: multiset<CacheBuffer>)
    returns (m: nat)
    requires NoDup(s) && IsPlan(plan, s, out) && k < |s| && InFront(s, k, out) && t < |plan| && plan[t] != s[k]
    requires plan[t].key == s[k].key && Denotes(RunPlan(s, plan, t, out), s[k])
    ensures m < |plan| && ReadsFreedKey(s, plan, m, out)
    decreases k
  {
    assert s[k] in plan;
    var u :| 0 <= u < |plan| && plan[u] == s[k];
    if t < u {
      m := u;
      TurnDeletes(s, plan, t, out);
      RunShrinks(s, plan, t + 1, u, out);
      assert s[k] !in Elems(RunPlan(s, plan, t + 1, out));
      assert s[k] !in Elems(RunPlan(s, plan, u, out));
    } else {
      var r := RunPlan(s, plan, u, out);
      RunShrinks(s, plan, u, t, out);
      assert s[k] in Elems(RunPlan(s, plan, t, out)) && s[k] in Elems(r);
      RunThins(s, plan, u, out);
      MemberIsPresent(r, s[k]);
      var v := FirstStandsAt(r, s, s[k].key);
      if v == k {
        TurnDeletes(s, plan, u, out);
        RunShrinks(s, plan, u + 1, t, out);
        assert false;
      } else {
        assert v < k && InFront(s, v, out);
        DistinctAt(s, v, k);
        m := WrongVictim(s, plan, v, u, out);
      }
    }
  }

  lemma DistinctAt(s: seq<CacheBuffer>, i: nat, j: nat)
    requires NoDup(s) && i < j < |s|
    ensures s[i] != s[j]
  {
    NoDupIsDistinct(s);
  }

  lemma NotInPrefix(plan: seq<CacheBuffer>, t: nat, b: CacheBuffer) returns (m: nat)
    requires t <= |plan| && b in plan && b !in plan[..t]
    ensures t <= m < |plan| && plan[m] == b
  {
    assert plan == plan[..t] + plan[t..];
    var q :| 0 <= q < |plan[t..]| && plan[t..][q] == b;
    m := t + q;
  }

  lemma OutOfOrderReads(s: seq<CacheBuffer>, i: nat, j: nat, plan: seq<CacheBuffer>,
                        out: multiset<CacheBuffer>)
    returns (m: nat)
    requires NoDup(s) && IsPlan(plan, s, out) && i < j < |s| && s[i].key == s[j].key && InFront(s, i, out)
    requires out[s[j]] == 0 && Before(plan, s[j], s[i])
    ensures m < |plan| && ReadsFreedKey(s, plan, m, out)
  {
    var t :| 0 <= t < |plan| && plan[t] == s[j] && s[i] !in plan[..t];
    var r := RunPlan(s, plan, t, out);
    DistinctAt(s, i, j);
    if s[i] !in r {
      assert s[i] in plan;
      m := NotInPrefix(plan, t, s[i]);
      RunShrinks(s, plan, t, m, out);
      assert s[i] !in Elems(r);
      assert s[i] !in Elems(RunPlan(s, plan, m, out));
    } else {
      RunThins(s, plan, t, out);
      MemberIsPresent(r, s[i]);
      var k := FirstStandsAt(r, s, s[i].key);
      assert k <= i && InFront(s, k, out);
      DistinctAt(s, k, j);
      m := WrongVictim(s, plan, k, t, out);
    }
  }

  /**
   No turn of any plan reads a freed key if and only if every two unreferenced buffers with one key, the older
   of which deletions can get to, were used in the order of their creation. Ties count as out of order.
   */
  lemma BorrowedKeysLive(s: seq<CacheBuffer>, out: multiset<CacheBuffer>)
    requires NoDup(s)
    ensures FrontInOrder(s, out) <==>
            forall plan | IsPlan(plan, s, out) :: forall m :: 0 <= m < |plan| ==> !ReadsFreedKey(s, plan, m, out)
  {
    if FrontInOrder(s, out) {
      forall plan | IsPlan(plan, s, out)
        ensures forall m :: 0 <= m < |plan| ==> !ReadsFreedKey(s, plan, m, out)
      {
        forall m | 0 <= m < |plan|
          ensures !ReadsFreedKey(s, plan, m, out)
        {
          NoFreedKey(s, plan, m, out);
        }
      }
    } else {
      var i, j :| 0 <= i < j < |s| && s[i].key == s[j].key && InFront(s, i, out) && out[s[j]] == 0 &&
        s[i].lastReference >= s[j].lastReference;
      YoungestFirstIsPlan(s, out);
      TieBrokenAgainst(s, i, j, out);
      var m := OutOfOrderReads(s, i, j, YoungestFirst(s, out), out);
    }
  }

  /** The condition of exact eviction is enough, and so are distinct keys. */
  lemma UnshadowedKeysLive(s: seq<CacheBuffer>, out: multiset<CacheBuffer>)
    requires Unshadowed(s, out)
    ensures FrontInOrder(s, out)
  {
  }
}
