/**
 The insertion-ordered association that src/cache/cache.c implements with a chained hash table:
 a sequence of buffers, oldest creation first, in which a key denotes its first buffer.
 */
module Association {
  import opened CBytes
  import opened Collections
  import opened Hash

  /**
   A cache entry: `CacheBuffer` together with its `BufferMeta`. The key and the size never change
   after creation; the bytes filled in, the reference count and the time stamp do.
   */
  class CacheBuffer {
    const key: CString
    const size: nat
    /** The bytes filled in; their number is `used`. */
    var data: seq<byte>
    var references: nat
    var lastReference: int

    /** `stamp` is whatever the uninitialised time stamp happens to hold. */
    constructor (key: CString, size: nat, stamp: int)
      ensures this.key == key && this.size == size && data == [] && references == 0 && lastReference == stamp
    {
      this.key, this.size, data, references, lastReference := key, size, [], 0, stamp;
    }
  }

  /** Distinct, in the form that suits recursion from the end. */
  ghost predicate NoDup(s: seq<CacheBuffer>) {
    s == [] || (NoDup(s[..|s| - 1]) && s[|s| - 1] !in s[..|s| - 1])
  }

  ghost predicate DistinctKeys(s: seq<CacheBuffer>) {
    forall i, j :: 0 <= i < j < |s| ==> s[i].key != s[j].key
  }

  /** Index of the oldest buffer with `key`, or |s| when there is none. */
  ghost function FirstIndex(s: seq<CacheBuffer>, key: CString): (r: nat)
    ensures r <= |s|
    ensures r < |s| ==> s[r].key == key
    ensures forall i :: 0 <= i < r ==> s[i].key != key
  {
    if s == [] then 0
    else
      var n := |s| - 1;
      var r := FirstIndex(s[..n], key);
      if r < n then r else if s[n].key == key then n else n + 1
  }

  ghost predicate Present(s: seq<CacheBuffer>, key: CString) {
    FirstIndex(s, key) < |s|
  }

  ghost function First(s: seq<CacheBuffer>, key: CString): CacheBuffer
    requires Present(s, key)
  {
    s[FirstIndex(s, key)]
  }

  ghost function RemoveAt(s: seq<CacheBuffer>, i: nat): seq<CacheBuffer>
    requires i < |s|
  {
    s[..i] + s[i + 1..]
  }

  /** The buffers of `s` outside `gone`, order kept. */
  ghost function Minus(s: seq<CacheBuffer>, gone: set<CacheBuffer>): (r: seq<CacheBuffer>)
    ensures forall b | b in s && b !in gone :: b in r
    ensures forall b | b in r :: b in s && b !in gone
  {
    if s == [] then []
    else
      var r := Minus(s[..|s| - 1], gone);
      if s[|s| - 1] in gone then r else r + [s[|s| - 1]]
  }

  /** The buffers of `s` whose key hashes to bucket `h`, order kept. */
  ghost function Bucket(s: seq<CacheBuffer>, h: nat, n: nat): (r: seq<CacheBuffer>)
    requires n > 0
    ensures forall b | b in s && HashOf(b.key, n) == h :: b in r
    ensures forall b | b in r :: b in s && HashOf(b.key, n) == h
  {
    if s == [] then []
    else
      var r := Bucket(s[..|s| - 1], h, n);
      if HashOf(s[|s| - 1].key, n) == h then r + [s[|s| - 1]] else r
  }

  ghost function Memory(s: seq<CacheBuffer>): nat {
    if s == [] then 0 else Memory(s[..|s| - 1]) + s[|s| - 1].size
  }

  /** Total length and total memory of the first `upto` buckets. */
  ghost function ChainsLength(s: seq<CacheBuffer>, upto: nat, n: nat): nat
    requires n > 0
  {
    if upto == 0 then 0 else ChainsLength(s, upto - 1, n) + |Bucket(s, upto - 1, n)|
  }

  ghost function ChainsMemory(s: seq<CacheBuffer>, upto: nat, n: nat): nat
    requires n > 0
  {
    if upto == 0 then 0 else ChainsMemory(s, upto - 1, n) + Memory(Bucket(s, upto - 1, n))
  }

  lemma {:induction false} MinusNoDup(s: seq<CacheBuffer>, gone: set<CacheBuffer>)
    requires NoDup(s)
    ensures NoDup(Minus(s, gone))
  {
    if s != [] {
      MinusNoDup(s[..|s| - 1], gone);
    }
  }

  lemma {:induction false} BucketNoDup(s: seq<CacheBuffer>, h: nat, n: nat)
    requires n > 0 && NoDup(s)
    ensures NoDup(Bucket(s, h, n))
  {
    if s != [] {
      BucketNoDup(s[..|s| - 1], h, n);
    }
  }

  lemma {:induction false} NoDupAt(s: seq<CacheBuffer>, i: nat)
    requires NoDup(s) && i < |s|
    ensures s[i] !in s[..i] && NoDup(s[..i])
  {
    if i < |s| - 1 {
      NoDupAt(s[..|s| - 1], i);
      assert s[..|s| - 1][..i] == s[..i];
    }
  }

  lemma {:induction false} NoDupIsDistinct(s: seq<CacheBuffer>)
    ensures NoDup(s) <==> Distinct(s)
  {
    if s != [] {
      var p, b := s[..|s| - 1], s[|s| - 1];
      NoDupIsDistinct(p);
      assert forall i :: 0 <= i < |p| ==> s[i] == p[i];
      assert Distinct(s) ==> b !in p;
    }
  }

  lemma {:induction false} ElemsCount(s: seq<CacheBuffer>)
    requires NoDup(s)
    ensures |Elems(s)| == |s|
  {
    if s != [] {
      var p, b := s[..|s| - 1], s[|s| - 1];
      ElemsCount(p);
      assert Elems(s) == Elems(p) + {b};
    }
  }

  // ---- Appending ----

  lemma SnocPrefix(s: seq<CacheBuffer>, b: CacheBuffer)
    ensures (s + [b])[..|s + [b]| - 1] == s && (s + [b])[|s + [b]| - 1] == b
  {}

  lemma ElemsSnoc(s: seq<CacheBuffer>, b: CacheBuffer)
    ensures Elems(s + [b]) == Elems(s) + {b}
    ensures NoDup(s) && b !in Elems(s) ==> NoDup(s + [b])
  {
    SnocPrefix(s, b);
  }

  lemma BucketSnoc(s: seq<CacheBuffer>, b: CacheBuffer, h: nat, n: nat)
    requires n > 0
    ensures Bucket(s + [b], h, n) == if HashOf(b.key, n) == h then Bucket(s, h, n) + [b] else Bucket(s, h, n)
  {
    SnocPrefix(s, b);
  }

  lemma MemorySnoc(s: seq<CacheBuffer>, b: CacheBuffer)
    ensures Memory(s + [b]) == Memory(s) + b.size
  {
    SnocPrefix(s, b);
  }

  lemma {:induction false} MemoryConcat(s: seq<CacheBuffer>, t: seq<CacheBuffer>)
    ensures Memory(s + t) == Memory(s) + Memory(t)
  {
    if t == [] {
      assert s + t == s;
    } else {
      var t' := t[..|t| - 1];
      assert s + t == (s + t') + [t[|t| - 1]];
      MemorySnoc(s + t', t[|t| - 1]);
      MemoryConcat(s, t');
    }
  }

  // ---- The table and the association agree ----

  /** A chain holds its keys in the order of the association, so both find the same buffer. */
  lemma {:induction false} LookupInBucket(s: seq<CacheBuffer>, key: CString, n: nat)
    requires n > 0
    ensures var chain := Bucket(s, HashOf(key, n), n);
            && (Present(chain, key) <==> Present(s, key))
            && (Present(s, key) ==> First(chain, key) == First(s, key))
  {
    if s != [] {
      var p, b := s[..|s| - 1], s[|s| - 1];
      LookupInBucket(p, key, n);
      var h := HashOf(key, n);
      if HashOf(b.key, n) == h {
        SnocPrefix(Bucket(p, h, n), b);
      }
    }
  }

  /** `s` without the oldest buffer with `key`. */
  ghost function Delete(s: seq<CacheBuffer>, key: CString): seq<CacheBuffer> {
    if s == [] then []
    else
      var p, b := s[..|s| - 1], s[|s| - 1];
      if Present(p, key) then Delete(p, key) + [b] else if b.key == key then p else s
  }

  lemma DeleteSnoc(p: seq<CacheBuffer>, b: CacheBuffer, key: CString)
    ensures Delete(p + [b], key) == if Present(p, key) then Delete(p, key) + [b]
                                    else if b.key == key then p else p + [b]
  {
    SnocPrefix(p, b);
  }

  lemma {:induction false} DeleteIsRemoval(s: seq<CacheBuffer>, key: CString)
    ensures Delete(s, key) == if Present(s, key) then RemoveAt(s, FirstIndex(s, key)) else s
  {
    if s != [] {
      var p, b := s[..|s| - 1], s[|s| - 1];
      assert s == p + [b];
      DeleteIsRemoval(p, key);
      if Present(s, key) {
        RemoveAtSnoc(p, b, FirstIndex(s, key));
      }
    }
  }

  /** Deleting a key changes its own chain exactly as it changes the association, and no other chain. */
  lemma {:induction false} DeleteInBuckets(s: seq<CacheBuffer>, key: CString, h: nat, n: nat)
    requires n > 0
    ensures Bucket(Delete(s, key), h, n) ==
            if h == HashOf(key, n) then Delete(Bucket(s, h, n), key) else Bucket(s, h, n)
  {
    if s != [] {
      var p, b := s[..|s| - 1], s[|s| - 1];
      assert s == p + [b];
      DeleteInBuckets(p, key, h, n);
      DeleteSnoc(p, b, key);
      BucketSnoc(p, b, h, n);
      LookupInBucket(p, key, n);
      if Present(p, key) {
        BucketSnoc(Delete(p, key), b, h, n);
      }
      if HashOf(b.key, n) == h {
        DeleteSnoc(Bucket(p, h, n), b, key);
      }
    }
  }

  /** Deleting one key disturbs no lookup of another key, whether or not they share a chain. */
  lemma {:induction false} DeleteKeepsOtherLookups(s: seq<CacheBuffer>, key: CString, other: CString)
    requires other != key
    ensures Present(Delete(s, key), other) <==> Present(s, other)
    ensures Present(s, other) ==> First(Delete(s, key), other) == First(s, other)
  {
    if s != [] {
      var p, b := s[..|s| - 1], s[|s| - 1];
      assert s == p + [b];
      DeleteKeepsOtherLookups(p, key, other);
      DeleteSnoc(p, b, key);
      SnocPrefix(p, b);
      SnocPrefix(Delete(p, key), b);
    }
  }

  /** What a deletion takes out of the totals. */
  lemma DeleteAccounts(s: seq<CacheBuffer>, key: CString)
    requires Present(s, key)
    ensures |Delete(s, key)| == |s| - 1
    ensures Memory(s) == Memory(Delete(s, key)) + First(s, key).size
  {
    DeleteIsRemoval(s, key);
    MemoryRemoveAt(s, FirstIndex(s, key));
  }

  lemma {:induction false} MemoryRemoveAt(s: seq<CacheBuffer>, i: nat)
    requires i < |s|
    ensures Memory(s) == Memory(RemoveAt(s, i)) + s[i].size
  {
    var p, b := s[..|s| - 1], s[|s| - 1];
    if i == |p| {
      assert RemoveAt(s, i) == p;
    } else {
      MemoryRemoveAt(p, i);
      assert RemoveAt(s, i) == RemoveAt(p, i) + [b];
      MemorySnoc(RemoveAt(p, i), b);
    }
  }

  lemma DeleteIsMinus(s: seq<CacheBuffer>, key: CString)
    requires NoDup(s) && Present(s, key)
    ensures Delete(s, key) == Minus(s, {First(s, key)}) && NoDup(Delete(s, key))
  {
    DeleteIsRemoval(s, key);
    MinusOne(s, FirstIndex(s, key));
    MinusNoDup(s, {First(s, key)});
  }

  lemma DeleteMembers(s: seq<CacheBuffer>, key: CString)
    requires NoDup(s)
    ensures NoDup(Delete(s, key))
    ensures Elems(Delete(s, key)) == if Present(s, key) then Elems(s) - {First(s, key)} else Elems(s)
  {
    DeleteIsRemoval(s, key);
    if Present(s, key) {
      DeleteIsMinus(s, key);
    }
  }

  lemma {:induction false} MinusOne(s: seq<CacheBuffer>, i: nat)
    requires NoDup(s) && i < |s|
    ensures RemoveAt(s, i) == Minus(s, {s[i]})
  {
    var p, b := s[..|s| - 1], s[|s| - 1];
    RemoveAtSnoc(p, b, i);
    assert s == p + [b];
    if i == |p| {
      MinusNone(p, {b});
    } else {
      MinusOne(p, i);
      assert p[i] in p;
    }
  }

  lemma RemoveAtSnoc(p: seq<CacheBuffer>, b: CacheBuffer, i: nat)
    requires i <= |p|
    ensures RemoveAt(p + [b], i) == if i == |p| then p else RemoveAt(p, i) + [b]
  {}

  lemma {:induction false} MinusNone(s: seq<CacheBuffer>, gone: set<CacheBuffer>)
    requires Elems(s) !! gone
    ensures Minus(s, gone) == s
  {
    if s != [] {
      MinusNone(s[..|s| - 1], gone);
    }
  }

  lemma {:induction false} MinusTwice(s: seq<CacheBuffer>, g: set<CacheBuffer>, h: set<CacheBuffer>)
    ensures Minus(Minus(s, g), h) == Minus(s, g + h)
  {
    if s != [] {
      var p, b := s[..|s| - 1], s[|s| - 1];
      MinusTwice(p, g, h);
      SnocPrefix(Minus(p, g), b);
    }
  }

  /** Removing distinct members takes exactly their number and their memory away. */
  lemma {:induction false} MinusAccounts(s: seq<CacheBuffer>, gone: seq<CacheBuffer>)
    requires NoDup(s) && NoDup(gone) && Elems(gone) <= Elems(s)
    ensures |Minus(s, Elems(gone))| + |gone| == |s|
    ensures Memory(Minus(s, Elems(gone))) + Memory(gone) == Memory(s)
  {
    if gone == [] {
      MinusNone(s, Elems(gone));
    } else {
      var g, b := gone[..|gone| - 1], gone[|gone| - 1];
      assert gone == g + [b];
      assert Elems(gone) == Elems(g) + {b};
      MinusAccounts(s, g);
      MinusOneMore(s, Elems(g), b);
    }
  }

  lemma MinusOneMore(s: seq<CacheBuffer>, gone: set<CacheBuffer>, b: CacheBuffer)
    requires NoDup(s) && b in s && b !in gone
    ensures |Minus(s, gone + {b})| + 1 == |Minus(s, gone)|
    ensures Memory(Minus(s, gone + {b})) + b.size == Memory(Minus(s, gone))
  {
    var m := Minus(s, gone);
    var k :| 0 <= k < |m| && m[k] == b;
    MinusNoDup(s, gone);
    MinusTwice(s, gone, {b});
    MinusOne(m, k);
    MemoryRemoveAt(m, k);
  }

  /** Every buffer lies in exactly one chain: lengths and memory add up over the table. */
  lemma {:induction false} ChainsAccount(s: seq<CacheBuffer>, n: nat)
    requires n > 0
    ensures ChainsLength(s, n, n) == |s| && ChainsMemory(s, n, n) == Memory(s)
  {
    if s == [] {
      ChainsOfNothing(n, n);
    } else {
      var p, b := s[..|s| - 1], s[|s| - 1];
      assert s == p + [b];
      ChainsAccount(p, n);
      ChainsSnoc(p, b, n, n);
    }
  }

  lemma {:induction false} ChainsOfNothing(upto: nat, n: nat)
    requires n > 0
    ensures ChainsLength([], upto, n) == 0 && ChainsMemory([], upto, n) == 0
  {
    if upto > 0 {
      ChainsOfNothing(upto - 1, n);
    }
  }

  lemma {:induction false} ChainsSnoc(p: seq<CacheBuffer>, b: CacheBuffer, upto: nat, n: nat)
    requires n > 0
    ensures ChainsLength(p + [b], upto, n) == ChainsLength(p, upto, n) + if HashOf(b.key, n) < upto then 1 else 0
    ensures ChainsMemory(p + [b], upto, n) == ChainsMemory(p, upto, n) + if HashOf(b.key, n) < upto then b.size else 0
  {
    if upto > 0 {
      ChainsSnoc(p, b, upto - 1, n);
      BucketSnoc(p, b, upto - 1, n);
      MemorySnoc(Bucket(p, upto - 1, n), b);
    }
  }

  // ---- Thinning ----

  /** `s` is `t` without some of its buffers: the others keep their order. */
  ghost predicate Thinned(s: seq<CacheBuffer>, t: seq<CacheBuffer>) {
    if t == [] then s == []
    else
      var p := t[..|t| - 1];
      if s != [] && s[|s| - 1] == t[|t| - 1] then Thinned(s[..|s| - 1], p) else Thinned(s, p)
  }

  lemma {:induction false} MinusThins(t: seq<CacheBuffer>, gone: set<CacheBuffer>)
    requires NoDup(t)
    ensures Thinned(Minus(t, gone), t)
  {
    if t != [] {
      var p, b := t[..|t| - 1], t[|t| - 1];
      MinusThins(p, gone);
      SnocPrefix(Minus(p, gone), b);
    }
  }

  lemma {:induction false} ThinnedIsMinus(s: seq<CacheBuffer>, t: seq<CacheBuffer>)
    requires NoDup(t) && Thinned(s, t)
    ensures Elems(s) <= Elems(t) && s == Minus(t, Elems(t) - Elems(s))
  {
    if t != [] {
      var p, b := t[..|t| - 1], t[|t| - 1];
      ElemsSnoc(p, b);
      assert t == p + [b];
      if s != [] && s[|s| - 1] == b {
        var q := s[..|s| - 1];
        ThinnedIsMinus(q, p);
        ElemsSnoc(q, b);
        assert s == q + [b];
        MinusAgrees(p, Elems(p) - Elems(q), Elems(t) - Elems(s));
      } else {
        ThinnedIsMinus(s, p);
        MinusAgrees(p, Elems(p) - Elems(s), Elems(t) - Elems(s));
      }
    }
  }

  lemma {:induction false} MinusAgrees(t: seq<CacheBuffer>, g: set<CacheBuffer>, h: set<CacheBuffer>)
    requires forall b | b in t :: b in g <==> b in h
    ensures Minus(t, g) == Minus(t, h)
  {
    if t != [] {
      MinusAgrees(t[..|t| - 1], g, h);
    }
  }

  lemma {:induction false} ThinnedSelf(s: seq<CacheBuffer>)
    ensures Thinned(s, s)
  {
    if s != [] {
      ThinnedSelf(s[..|s| - 1]);
    }
  }

  lemma ThinnedDelete(s: seq<CacheBuffer>, key: CString)
    requires NoDup(s)
    ensures Thinned(Delete(s, key), s)
  {
    if Present(s, key) {
      DeleteIsMinus(s, key);
      MinusThins(s, {First(s, key)});
    } else {
      DeleteIsRemoval(s, key);
      ThinnedSelf(s);
    }
  }

  lemma ThinnedTwice(s: seq<CacheBuffer>, t: seq<CacheBuffer>, u: seq<CacheBuffer>)
    requires NoDup(u) && NoDup(t) && Thinned(s, t) && Thinned(t, u)
    ensures Thinned(s, u) && Elems(s) <= Elems(u)
  {
    ThinnedIsMinus(s, t);
    ThinnedIsMinus(t, u);
    MinusTwice(u, Elems(u) - Elems(t), Elems(t) - Elems(s));
    MinusThins(u, (Elems(u) - Elems(t)) + (Elems(t) - Elems(s)));
  }

  lemma ThinnedSnoc(s: seq<CacheBuffer>, t: seq<CacheBuffer>, b: CacheBuffer)
    requires Thinned(s, t)
    ensures Thinned(s + [b], t + [b])
  {
    SnocPrefix(s, b);
    SnocPrefix(t, b);
  }

  /** `r` is the first of `t` with the key among those that are left, or null when none is left. */
  ghost predicate OldestLeft(t: seq<CacheBuffer>, gone: set<CacheBuffer>, key: CString, r: CacheBuffer?) {
    if r == null then forall b | b in t && b.key == key :: b in gone
    else exists j :: 0 <= j < |t| && t[j] == r && OldestLeftAt(t, gone, key, j)
  }

  ghost predicate OldestLeftAt(t: seq<CacheBuffer>, gone: set<CacheBuffer>, key: CString, j: nat)
    requires j < |t|
  {
    t[j].key == key && t[j] !in gone && forall i :: 0 <= i < j && t[i].key == key ==> t[i] in gone
  }

  /** Lookup in what is left finds the oldest buffer of the whole sequence that is left. */
  lemma {:induction false} LookupOldestLeft(t: seq<CacheBuffer>, gone: set<CacheBuffer>, key: CString)
    ensures var s := Minus(t, gone);
            OldestLeft(t, gone, key, if Present(s, key) then First(s, key) else null)
  {
    if t != [] {
      var p, b := t[..|t| - 1], t[|t| - 1];
      var r := Minus(p, gone);
      LookupOldestLeft(p, gone, key);
      SnocPrefix(r, b);
      assert t == p + [b];
      if Present(r, key) {
        var j :| 0 <= j < |p| && p[j] == First(r, key) && OldestLeftAt(p, gone, key, j);
        assert OldestLeftAt(t, gone, key, j);
      } else if b !in gone && b.key == key {
        assert forall i :: 0 <= i < |p| ==> t[i] in p;
        assert OldestLeftAt(t, gone, key, |p|);
      }
    }
  }

  /** In particular, thinning leaves the lookup of a key alone as long as its oldest buffer stays. */
  lemma ThinnedKeepsFirst(s: seq<CacheBuffer>, t: seq<CacheBuffer>, key: CString)
    requires NoDup(t) && Thinned(s, t) && Present(t, key) && First(t, key) in s
    ensures Present(s, key) && First(s, key) == First(t, key)
  {
    var gone := Elems(t) - Elems(s);
    ThinnedIsMinus(s, t);
    LookupOldestLeft(t, gone, key);
    var i := FirstIndex(t, key);
    assert t[i] in t && t[i] !in gone;
    var j :| 0 <= j < |t| && t[j] == First(s, key) && OldestLeftAt(t, gone, key, j);
    assert i == j;
  }

  // ---- The chained table as a whole ----

  /** `chains` is a hash table of `order`: every chain is the matching bucket. */
  ghost predicate Represents(chains: seq<seq<CacheBuffer>>, order: seq<CacheBuffer>) {
    && |chains| > 0
    && NoDup(order)
    && forall h :: 0 <= h < |chains| ==> chains[h] == Bucket(order, h, |chains|)
  }

  lemma RepresentsDelete(chains: seq<seq<CacheBuffer>>, order: seq<CacheBuffer>, key: CString)
    requires Represents(chains, order) && Present(order, key)
    ensures var h := HashOf(key, |chains|);
            Represents(chains[h := Delete(chains[h], key)], Delete(order, key))
  {
    var n, h := |chains|, HashOf(key, |chains|);
    var next, rest := chains[h := Delete(chains[h], key)], Delete(order, key);
    DeleteMembers(order, key);
    forall g | 0 <= g < n
      ensures next[g] == Bucket(rest, g, n)
    {
      DeleteInBuckets(order, key, g, n);
    }
  }

  lemma RepresentsSnoc(chains: seq<seq<CacheBuffer>>, order: seq<CacheBuffer>, b: CacheBuffer)
    requires Represents(chains, order) && b !in order
    ensures var h := HashOf(b.key, |chains|);
            Represents(chains[h := chains[h] + [b]], order + [b])
  {
    var n, h := |chains|, HashOf(b.key, |chains|);
    SnocPrefix(order, b);
    forall g | 0 <= g < n
      ensures Bucket(order + [b], g, n) == if g == h then chains[h] + [b] else chains[g]
    {
      BucketSnoc(order, b, g, n);
    }
  }

  /** The nodes on the chains are the buffers of the association, each in the chain of its key's hash. */
  lemma RepresentsMembers(chains: seq<seq<CacheBuffer>>, order: seq<CacheBuffer>, h: nat)
    requires Represents(chains, order) && h < |chains|
    ensures NoDup(chains[h])
    ensures forall b :: b in chains[h] <==> b in order && HashOf(b.key, |chains|) == h
  {
    BucketNoDup(order, h, |chains|);
  }

  /** Both searches find the same buffer. */
  lemma RepresentsLookup(chains: seq<seq<CacheBuffer>>, order: seq<CacheBuffer>, key: CString)
    requires Represents(chains, order)
    ensures var chain := chains[HashOf(key, |chains|)];
            && (Present(chain, key) <==> Present(order, key))
            && (Present(order, key) ==> First(chain, key) == First(order, key))
  {
    LookupInBucket(order, key, |chains|);
  }
}
