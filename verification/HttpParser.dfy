/**
 `ParseHttpRequest` of src/server/request.c in place: `strtok_r` cuts the receive buffer into C strings by
 writing NULs into it, first into lines and then, inside the request line, into words.
 */
module HttpParser {
  import opened CBytes
  import opened HttpText
  import opened DynamicStrings

  lemma SpnIs(t: seq<byte>, delimiters: set<byte>, k: nat)
    requires k <= |t| && (forall i :: 0 <= i < k ==> t[i] in delimiters)
    requires k < |t| ==> t[k] !in delimiters
    ensures Spn(t, delimiters) == k
  {}

  lemma CspnIs(t: seq<byte>, delimiters: set<byte>, k: nat)
    requires k <= |t| && (forall i :: 0 <= i < k ==> t[i] !in delimiters)
    requires k < |t| ==> t[k] in delimiters
    ensures Cspn(t, delimiters) == k
  {}

  /** A C string starts at offset `s` of memory `m`. */
  ghost predicate StringAt(m: seq<byte>, s: nat, t: CString) {
    && s + |t| < |m| && m[s + |t|] == NUL
    && forall i :: 0 <= i < |t| ==> m[s + i] == t[i]
  }

  lemma SuffixAt(m: seq<byte>, s: nat, t: CString, k: nat)
    requires StringAt(m, s, t) && k <= |t|
    ensures StringAt(m, s + k, t[k..])
  {
    forall i | 0 <= i < |t[k..]|
      ensures m[s + k + i] == t[k..][i]
    {
      assert m[s + (k + i)] == t[k + i];
    }
  }

  /** The byte at distance `k` into a string, terminator included. */
  lemma ByteAt(m: seq<byte>, s: nat, t: CString, k: nat)
    requires StringAt(m, s, t) && k <= |t|
    ensures m[s + k] == NUL <==> k == |t|
    ensures k < |t| ==> m[s + k] == t[k]
  {
    if k < |t| {
      assert t[k] in t;
    }
  }

  /** `strspn`. */
  method Skip(a: array<byte>, s: nat, delimiters: set<byte>, ghost t: CString) returns (p: nat)
    requires NUL !in delimiters && StringAt(a[..], s, t)
    ensures p == s + Spn(t, delimiters)
  {
    p := s;
    ByteAt(a[..], s, t, 0);
    while a[p] in delimiters
      invariant s <= p <= s + |t| && (a[p] == NUL <==> p == s + |t|)
      invariant p < s + |t| ==> a[p] == t[p - s]
      invariant forall i :: 0 <= i < p - s ==> t[i] in delimiters
      decreases s + |t| - p
    {
      p := p + 1;
      ByteAt(a[..], s, t, p - s);
    }
    SpnIs(t, delimiters, p - s);
  }

  /** `strcspn`. */
  method Find(a: array<byte>, s: nat, delimiters: set<byte>, ghost t: CString) returns (p: nat)
    requires NUL !in delimiters && StringAt(a[..], s, t)
    ensures p == s + Cspn(t, delimiters)
  {
    p := s;
    ByteAt(a[..], s, t, 0);
    while a[p] != NUL && a[p] !in delimiters
      invariant s <= p <= s + |t| && (a[p] == NUL <==> p == s + |t|)
      invariant p < s + |t| ==> a[p] == t[p - s]
      invariant forall i :: 0 <= i < p - s ==> t[i] !in delimiters
      decreases s + |t| - p
    {
      p := p + 1;
      ByteAt(a[..], s, t, p - s);
    }
    CspnIs(t, delimiters, p - s);
  }

  /** The first half of `strtok_r`: where the token starts, and the string `u` from there. */
  method SkipTo(a: array<byte>, s: nat, delimiters: set<byte>, ghost t: CString) returns (p: nat, ghost u: CString)
    requires NUL !in delimiters && StringAt(a[..], s, t)
    ensures u == t[Spn(t, delimiters)..] && StringAt(a[..], p, u)
    ensures s <= p && p + |u| == s + |t| && (a[p] == NUL <==> u == [])
  {
    p := Skip(a, s, delimiters, t);
    u := t[p - s..];
    SuffixAt(a[..], s, t, p - s);
    ByteAt(a[..], p, u, 0);
  }

  /** The next token of a string, from where its delimiters end. */
  lemma TokenFrom(t: CString, delimiters: set<byte>, u: CString)
    requires u == t[Spn(t, delimiters)..]
    ensures var n := Cspn(u, delimiters);
            if u == [] then NextToken(t, delimiters) == (None, [])
            else && NextToken(t, delimiters).0 == Some(u[..n])
                 && NextToken(t, delimiters).1 == if n == |u| then [] else u[n + 1..]
  {
  }

  /**
   glibc's `strtok_r`, with offsets for pointers: at most one byte changes, and it lies inside the string.
   */
  method StrtokR(a: array<byte>, s: nat, delimiters: set<byte>, ghost t: CString)
    returns (token: Option<nat>, save: nat, ghost word: Option<CString>, ghost rest: CString)
    requires NUL !in delimiters && StringAt(a[..], s, t)
    modifies a
    ensures word == NextToken(t, delimiters).0 && rest == NextToken(t, delimiters).1
    ensures token.Some? <==> word.Some?
    ensures s <= save && save + |rest| == s + |t| && StringAt(a[..], save, rest)
    ensures token.Some? ==> StringAt(a[..], token.value, word.value)
    ensures token.Some? ==> s <= token.value && token.value + |word.value| <= save
    ensures forall i :: 0 <= i < a.Length && (i < s || s + |t| <= i) ==> a[i] == old(a[i])
  {
    var p;
    ghost var u;
    p, u := SkipTo(a, s, delimiters, t);
    TokenFrom(t, delimiters, u);
    if a[p] == NUL {
      token, save, word, rest := None, p, None, [];
    } else {
      ghost var w;
      save, w, rest := EndToken(a, p, delimiters, u);
      token, word := Some(p), Some(w);
    }
  }

  /** The second half of `strtok_r`: the token at `p` is ended with a NUL, unless it ends the string. */
  method EndToken(a: array<byte>, p: nat, delimiters: set<byte>, ghost u: CString)
    returns (save: nat, ghost word: CString, ghost rest: CString)
    requires NUL !in delimiters && StringAt(a[..], p, u)
    modifies a
    ensures word == u[..Cspn(u, delimiters)]
    ensures rest == if Cspn(u, delimiters) == |u| then [] else u[Cspn(u, delimiters) + 1..]
    ensures p + |word| <= save && save + |rest| == p + |u|
    ensures StringAt(a[..], p, word) && StringAt(a[..], save, rest)
    ensures forall i :: 0 <= i < a.Length && (i < p || p + |u| <= i) ==> a[i] == old(a[i])
  {
    var q := Find(a, p, delimiters, u);
    ghost var n := Cspn(u, delimiters);
    word := u[..n];
    ByteAt(a[..], p, u, n);
    if a[q] == NUL {
      assert word == u;
      save, rest := q, [];
    } else {
      ghost var m := a[..];
      CutAt(m, p, u, n);
      a[q] := NUL;
      assert a[..] == m[p + n := NUL];
      save, rest := q + 1, u[n + 1..];
    }
  }

  /** Writing a NUL into a string leaves the part in front of it and the part behind it as strings. */
  lemma CutAt(m: seq<byte>, s: nat, t: CString, k: nat)
    requires StringAt(m, s, t) && k < |t|
    ensures StringAt(m[s + k := NUL], s, t[..k])
    ensures StringAt(m[s + k := NUL], s + k + 1, t[k + 1..])
  {
    SuffixAt(m, s, t, k + 1);
  }

  /** `strlen` and `memcpy` of the string at `s`, as `SetDynamicStringChar` takes it. */
  method ReadString(a: array<byte>, s: nat, ghost t: CString) returns (r: CString)
    requires StringAt(a[..], s, t)
    ensures r == t
  {
    var n := Find(a, s, {}, t);
    CspnIs(t, {}, |t|);
    assert a[s..n] == t;
    r := a[s..n];
  }

  /** The request line, already cut out at `start`. `Parsed` carries the method and the path only. */
  method ParseRequestLine(a: array<byte>, start: nat, ghost t: CString) returns (r: Outcome)
    requires StringAt(a[..], start, t)
    modifies a
    ensures r == RequestLine(t)
    ensures forall i :: 0 <= i < a.Length && (i < start || start + |t| <= i) ==> a[i] == old(a[i])
  {
    var token, line;
    ghost var word, rest;
    token, line, word, rest := StrtokR(a, start, SPACE, t);
    if token == None {
      return NullToken;
    }
    var name := ReadString(a, token.value, word.value);
    if !StartsWith(name, GET) && !StartsWith(name, HEAD) {
      return UnsupportedMethod;
    }
    var method_ := if StartsWith(name, GET) then Get else Head;
    token, line, word, rest := StrtokR(a, line, SPACE, rest);
    if token == None {
      return NullToken;
    }
    var path := ReadString(a, token.value, word.value);
    token, line, word, rest := StrtokR(a, line, SPACE, rest);
    if token == None {
      return NullToken;
    }
    var version := ReadString(a, token.value, word.value);
    if !StartsWith(version, HTTP_1) {
      return UnsupportedVersion;
    }
    r := Parsed(Request(method_, path, [], []));
  }

  /** The header lines, from `start` on. */
  method ParseHeaders(a: array<byte>, start: nat, parsed: Request, ghost t: CString) returns (request: Request)
    requires StringAt(a[..], start, t)
    modifies a
    ensures request == ApplyHeaders(parsed, t)
  {
    request := parsed;
    var rest := start;
    ghost var left := t;
    while true
      invariant StringAt(a[..], rest, left)
      invariant ApplyHeaders(request, left) == ApplyHeaders(parsed, t)
      decreases |left|
    {
      var token;
      ghost var line;
      token, rest, line, left := StrtokR(a, rest, LINE_ENDS, left);
      if token == None {
        break;
      }
      var text := ReadString(a, token.value, line.value);
      if StartsWith(text, USER_AGENT) {
        request := request.(userAgent := text[12..]);
      } else if StartsWith(text, HOST) {
        request := request.(host := text[6..]);
      }
    }
  }

  /**
   `ParseHttpRequest`. The source does not write a NUL behind the received bytes: whatever lies in the block
   up to its first NUL is parsed. Without any NUL in the block, `strtok_r` would read past it.
   */
  method ParseHttpRequest(buffer: DynamicString) returns (r: Outcome)
    requires buffer.Valid() && NUL in buffer.data[..]
    modifies buffer.data
    ensures r == if buffer.size == 0 then Empty else ParseText(CStr(old(buffer.data[..])))
  {
    if buffer.size == 0 {
      return Empty;
    }
    var a := buffer.data;
    ghost var t := CStr(a[..]);
    FirstString(a[..]);
    var token, rest;
    ghost var line, left;
    token, rest, line, left := StrtokR(a, 0, LINE_ENDS, t);
    if token == None {
      return ParseError;
    }
    r := ParseRequestLine(a, token.value, line.value);
    if !r.Parsed? {
      return;
    }
    var request := ParseHeaders(a, rest, r.request, left);
    r := Parsed(request);
  }

  lemma FirstString(m: seq<byte>)
    requires NUL in m
    ensures StringAt(m, 0, CStr(m))
  {
    assert m[..|m|] == m;
  }
}
