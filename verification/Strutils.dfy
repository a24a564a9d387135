/** src/utils/strutils.c: the bounded search that frames requests. */
module Strutils {
  import opened CBytes

  /** `find` lies wholly in the first `slen` bytes of `s`, at offset `k`, and before any NUL. */
  predicate Occurs(s: seq<byte>, find: CString, slen: nat, k: nat) {
    k + |find| <= slen && At(s, k, find) && NUL !in s[..k]
  }

  /** `strnstr`. The memory at `s` must be readable for `slen` bytes or up to a NUL. */
  method Strnstr(s: seq<byte>, find: CString, slen: nat) returns (r: Option<nat>)
    requires slen <= |s| || NUL in s
    ensures r.Some? ==> Occurs(s, find, slen, r.value)
    ensures forall k: nat :: Occurs(s, find, slen, k) ==> r.Some? && r.value <= k
  {
    if find == [] {
      return Some(0);
    }
    var c, rest := find[0], find[1..];
    var len := |rest|;
    var p, left := 0, slen as int;
    while true
      invariant 0 <= p <= |s| && left == slen - p >= 0
      invariant NUL !in s[..p]
      invariant forall k: nat :: k < p ==> !Occurs(s, find, slen, k)
      decreases left
    {
      while true
        invariant 0 <= p <= |s| && left == slen - p >= 0
        invariant NUL !in s[..p]
        invariant forall k: nat :: k < p ==> !Occurs(s, find, slen, k)
        decreases left
      {
        if left < 1 {
          return None;
        }
        left := left - 1;
        assert s[..|s|] == s;
        var sc := s[p];
        p := p + 1;
        assert s[..p] == s[..p - 1] + [sc];
        if sc == NUL {
          NoneAfterNul(s, find, slen, p - 1);
          return None;
        }
        if sc == c {
          break;
        }
        FirstByte(s, p - 1, find);
      }
      if len > left {
        return None;
      }
      MatchAt(s, find, p - 1);
      if At(s, p, rest) {
        break;
      }
    }
    r := Some(p - 1);
  }

  lemma NoneAfterNul(s: seq<byte>, find: CString, slen: nat, i: nat)
    requires i < |s| && s[i] == NUL && find != []
    ensures forall k: nat :: k >= i ==> !Occurs(s, find, slen, k)
  {
    assert find[0] in find;
    forall k: nat | k >= i
      ensures !Occurs(s, find, slen, k)
    {
      FirstByte(s, k, find);
      assert i < k <= |s| ==> s[i] in s[..k];
    }
  }

  lemma FirstByte(s: seq<byte>, k: nat, find: seq<byte>)
    requires find != []
    ensures At(s, k, find) ==> k < |s| && s[k] == find[0]
  {
    assert k + |find| <= |s| ==> s[k..k + |find|][0] == s[k];
  }

  lemma MatchAt(s: seq<byte>, find: seq<byte>, k: nat)
    requires find != [] && k < |s| && s[k] == find[0]
    ensures At(s, k, find) <==> At(s, k + 1, find[1..])
  {
    if k + |find| <= |s| {
      assert s[k..k + |find|] == [s[k]] + s[k + 1..k + 1 + |find[1..]|];
      assert find == [find[0]] + find[1..];
    }
  }
}
