/**
 Parsing undoes printing: requests rendered as in sections 2.1, 3 and 5 of RFC 9112 are recovered field by
 field, whatever the order of the header lines and however many empty lines come first.
 */
module HttpRoundTrip {
  import opened CBytes
  import opened HttpText

  const CRLF: CString := [CR, LF]

  datatype HeaderLine = HostLine(value: CString) | UserAgentLine(value: CString) | OtherLine(text: CString)

  predicate Free(t: CString, stop: set<byte>) {
    forall c | c in t :: c !in stop
  }

  /** A header line holds no line end. Other lines are not empty and do not start like the two known ones. */
  predicate LineOk(h: HeaderLine) {
    match h
    case HostLine(v) => Free(v, LINE_ENDS)
    case UserAgentLine(v) => Free(v, LINE_ENDS)
    case OtherLine(t) => Free(t, LINE_ENDS) && t != [] && !StartsWith(t, HOST) && !StartsWith(t, USER_AGENT)
  }

  function LineText(h: HeaderLine): CString {
    match h
    case HostLine(v) => HOST + v
    case UserAgentLine(v) => USER_AGENT + v
    case OtherLine(t) => t
  }

  function Lines(hs: seq<HeaderLine>): CString {
    if hs == [] then [] else LineText(hs[0]) + CRLF + Lines(hs[1..])
  }

  function EmptyLines(n: nat): CString {
    if n == 0 then [] else CRLF + EmptyLines(n - 1)
  }

  function MethodText(m: Method): CString {
    if m == Get then GET else HEAD
  }

  function RequestLineText(name: CString, path: CString, version: CString): CString {
    name + [SP] + path + [SP] + version
  }

  /** The whole request head, after `lead` empty lines and with nothing behind the blank line. */
  function HeadText(lead: nat, line: CString, hs: seq<HeaderLine>): CString {
    EmptyLines(lead) + line + CRLF + Lines(hs) + CRLF
  }

  /** The value of the last `Host` line, if any. */
  function LastHost(hs: seq<HeaderLine>, default: CString): CString {
    if hs == [] then default
    else if hs[|hs| - 1].HostLine? then hs[|hs| - 1].value
    else LastHost(hs[..|hs| - 1], default)
  }

  function LastUserAgent(hs: seq<HeaderLine>, default: CString): CString {
    if hs == [] then default
    else if hs[|hs| - 1].UserAgentLine? then hs[|hs| - 1].value
    else LastUserAgent(hs[..|hs| - 1], default)
  }

  // ---- Tokens ----

  lemma {:induction false} SpnSkips(skip: seq<byte>, t: seq<byte>, delimiters: set<byte>)
    requires forall c | c in skip :: c in delimiters
    ensures Spn(skip + t, delimiters) == |skip| + Spn(t, delimiters)
  {
    if skip == [] {
      assert skip + t == t;
    } else {
      assert (skip + t)[1..] == skip[1..] + t;
      SpnSkips(skip[1..], t, delimiters);
    }
  }

  lemma {:induction false} CspnPasses(word: seq<byte>, t: seq<byte>, delimiters: set<byte>)
    requires forall c | c in word :: c !in delimiters
    ensures Cspn(word + t, delimiters) == |word| + Cspn(t, delimiters)
  {
    if word == [] {
      assert word + t == t;
    } else {
      assert (word + t)[1..] == word[1..] + t;
      CspnPasses(word[1..], t, delimiters);
    }
  }

  /** The next token of delimiters, a word, one delimiter and a rest. */
  lemma TokenThenRest(skip: CString, word: CString, d: byte, rest: CString, delimiters: set<byte>)
    requires forall c | c in skip :: c in delimiters
    requires word != [] && Free(word, delimiters) && d in delimiters && d != NUL
    ensures NextToken(skip + word + [d] + rest, delimiters) == (Some(word), rest)
  {
    var u := word + ([d] + rest);
    Pieces(skip, word, d, rest);
    assert u[0] in word;
    SpnSkips(skip, u, delimiters);
    CspnPasses(word, [d] + rest, delimiters);
  }

  lemma Pieces(skip: seq<byte>, word: seq<byte>, d: byte, rest: seq<byte>)
    ensures var (t, u) := (skip + word + [d] + rest, word + ([d] + rest));
            && t == skip + u && t[|skip|..] == u && u[..|word|] == word && u[|word| + 1..] == rest
            && (word != [] ==> u[0] == word[0])
  {
    var u := word + ([d] + rest);
    assert skip + word + [d] + rest == skip + u;
    assert u[|word| + 1..] == rest;
  }

  lemma LastToken(word: CString, delimiters: set<byte>)
    requires word != [] && Free(word, delimiters)
    ensures NextToken(word, delimiters) == (Some(word), [])
  {
    assert word[0] in word;
    assert word + [] == word;
    CspnPasses(word, [], delimiters);
    assert word[0..] == word && word[..|word|] == word;
  }

  lemma NoToken(t: CString, delimiters: set<byte>)
    requires forall c | c in t :: c in delimiters
    ensures NextToken(t, delimiters) == (None, [])
  {
    assert t + [] == t;
    SpnSkips(t, [], delimiters);
  }

  lemma {:induction false} EmptyLinesAreDelimiters(n: nat)
    ensures forall c | c in EmptyLines(n) :: c in LINE_ENDS
  {
    if n > 0 {
      EmptyLinesAreDelimiters(n - 1);
    }
  }

  // ---- The request line ----

  lemma FirstWord(word: CString, rest: CString)
    requires word != [] && Free(word, SPACE)
    ensures NextToken(word + [SP] + rest, SPACE) == (Some(word), rest)
  {
    assert [] + word + [SP] + rest == word + [SP] + rest;
    TokenThenRest([], word, SP, rest, SPACE);
  }

  lemma ParseLine(name: CString, path: CString, version: CString)
    requires name != [] && path != [] && version != []
    requires Free(name, SPACE) && Free(path, SPACE) && Free(version, SPACE)
    ensures RequestLine(RequestLineText(name, path, version)) ==
            if !StartsWith(name, GET) && !StartsWith(name, HEAD) then UnsupportedMethod
            else if !StartsWith(version, HTTP_1) then UnsupportedVersion
            else Parsed(Request(if StartsWith(name, GET) then Get else Head, path, [], []))
  {
    assert RequestLineText(name, path, version) == name + [SP] + (path + [SP] + version);
    FirstWord(name, path + [SP] + version);
    FirstWord(path, version);
    LastToken(version, SPACE);
  }

  // ---- The header lines ----

  lemma HeaderIsApplied(r: Request, h: HeaderLine)
    requires LineOk(h)
    ensures ApplyHeader(r, LineText(h)) == WithHeader(r, h)
  {
    match h
    case HostLine(v) =>
      assert (HOST + v)[0] == 72;
      assert (HOST + v)[6..] == v;
    case UserAgentLine(v) =>
      assert (USER_AGENT + v)[12..] == v;
    case OtherLine(_) =>
  }

  lemma LineIsToken(h: HeaderLine, rest: CString)
    requires LineOk(h)
    ensures NextToken([LF] + (LineText(h) + CRLF + rest), LINE_ENDS) == (Some(LineText(h)), [LF] + rest)
  {
    var t := LineText(h);
    assert Free(t, LINE_ENDS);
    assert [LF] + (t + CRLF + rest) == [LF] + t + [CR] + ([LF] + rest);
    TokenThenRest([LF], t, CR, [LF] + rest, LINE_ENDS);
  }

  function WithHeader(r: Request, h: HeaderLine): Request {
    match h
    case HostLine(v) => r.(host := v)
    case UserAgentLine(v) => r.(userAgent := v)
    case OtherLine(_) => r
  }

  lemma ApplyOneLine(r: Request, h: HeaderLine, rest: CString)
    requires LineOk(h)
    ensures ApplyHeaders(r, [LF] + (LineText(h) + CRLF + rest)) == ApplyHeaders(WithHeader(r, h), [LF] + rest)
  {
    LineIsToken(h, rest);
    HeaderIsApplied(r, h);
  }

  lemma FirstLine(hs: seq<HeaderLine>)
    requires hs != []
    ensures Lines(hs) + CRLF == LineText(hs[0]) + CRLF + (Lines(hs[1..]) + CRLF)
  {
    assert LineText(hs[0]) + CRLF + Lines(hs[1..]) + CRLF == LineText(hs[0]) + CRLF + (Lines(hs[1..]) + CRLF);
  }

  lemma {:induction false} ApplyLines(r: Request, hs: seq<HeaderLine>)
    requires forall h | h in hs :: LineOk(h)
    ensures ApplyHeaders(r, [LF] + (Lines(hs) + CRLF)) ==
            r.(host := LastHost(hs, r.host), userAgent := LastUserAgent(hs, r.userAgent))
    decreases |hs|
  {
    if hs == [] {
      NoToken([LF] + (Lines(hs) + CRLF), LINE_ENDS);
    } else {
      var h, more := hs[0], hs[1..];
      FirstLine(hs);
      ApplyOneLine(r, h, Lines(more) + CRLF);
      ApplyLines(WithHeader(r, h), more);
      LastOfAll(hs, r);
    }
  }

  lemma LastOfAll(hs: seq<HeaderLine>, r: Request)
    requires hs != []
    ensures LastHost(hs, r.host) == LastHost(hs[1..], WithHeader(r, hs[0]).host)
    ensures LastUserAgent(hs, r.userAgent) == LastUserAgent(hs[1..], WithHeader(r, hs[0]).userAgent)
  {
    assert hs == [hs[0]] + hs[1..];
    LastOfCons(hs[0], hs[1..], r);
  }

  lemma {:induction false} LastOfCons(h: HeaderLine, more: seq<HeaderLine>, r: Request)
    ensures LastHost([h] + more, r.host) == LastHost(more, if h.HostLine? then h.value else r.host)
    ensures LastUserAgent([h] + more, r.userAgent) ==
            LastUserAgent(more, if h.UserAgentLine? then h.value else r.userAgent)
  {
    if more == [] {
      assert [h] + more == [h];
      assert [h][..0] == [];
    } else {
      var n := |more| - 1;
      assert ([h] + more)[..n + 1] == [h] + more[..n];
      LastOfCons(h, more[..n], r);
    }
  }

  // ---- The theorems ----

  lemma CutAfterCr(front: CString, lines: CString, end: CString)
    ensures front + CRLF + lines + end == front + [CR] + ([LF] + (lines + end))
  {
    assert CRLF == [CR] + [LF];
  }

  /** The head parser sees the request line alone, whatever surrounds it. */
  lemma HeadSplits(lead: nat, line: CString, hs: seq<HeaderLine>)
    requires line != [] && Free(line, LINE_ENDS)
    ensures NextToken(HeadText(lead, line, hs), LINE_ENDS) == (Some(line), [LF] + (Lines(hs) + CRLF))
  {
    EmptyLinesAreDelimiters(lead);
    CutAfterCr(EmptyLines(lead) + line, Lines(hs), CRLF);
    TokenThenRest(EmptyLines(lead), line, CR, [LF] + (Lines(hs) + CRLF), LINE_ENDS);
  }

  /** Every printed GET or HEAD request is parsed back into its four fields. */
  lemma ParseUndoesPrint(lead: nat, m: Method, path: CString, version: CString, hs: seq<HeaderLine>)
    requires path != [] && Free(path, SPACE + LINE_ENDS)
    requires StartsWith(version, HTTP_1) && Free(version, SPACE + LINE_ENDS)
    requires forall h | h in hs :: LineOk(h)
    ensures ParseText(HeadText(lead, RequestLineText(MethodText(m), path, version), hs)) ==
            Parsed(Request(m, path, LastUserAgent(hs, []), LastHost(hs, [])))
  {
    var line := RequestLineText(MethodText(m), path, version);
    assert Free(line, LINE_ENDS) by {
      assert Free(MethodText(m), LINE_ENDS);
    }
    HeadSplits(lead, line, hs);
    ParseLine(MethodText(m), path, version);
    assert HEAD[0] != GET[0];
    ApplyLines(Request(m, path, [], []), hs);
  }

  /**
   A method that does not start with GET or HEAD is refused, and so is a version that does not start with
   HTTP/1., whatever else the request says; nothing else is.
   */
  lemma RefusedRequests(lead: nat, name: CString, path: CString, version: CString, hs: seq<HeaderLine>)
    requires name != [] && Free(name, SPACE + LINE_ENDS) && path != [] && Free(path, SPACE + LINE_ENDS)
    requires version != [] && Free(version, SPACE + LINE_ENDS)
    ensures var r := ParseText(HeadText(lead, RequestLineText(name, path, version), hs));
            && (r == UnsupportedMethod <==> !StartsWith(name, GET) && !StartsWith(name, HEAD))
            && (r == UnsupportedVersion <==>
                  (StartsWith(name, GET) || StartsWith(name, HEAD)) && !StartsWith(version, HTTP_1))
  {
    var line := RequestLineText(name, path, version);
    assert Free(line, LINE_ENDS);
    HeadSplits(lead, line, hs);
    ParseLine(name, path, version);
  }

  /** The same in bytes: "GET" or "HEAD" in front of the method and "HTTP/1." of the version decide, and only they. */
  lemma AcceptedRequests(lead: nat, name: CString, path: CString, version: CString, hs: seq<HeaderLine>)
    requires name != [] && Free(name, SPACE + LINE_ENDS) && path != [] && Free(path, SPACE + LINE_ENDS)
    requires version != [] && Free(version, SPACE + LINE_ENDS) && forall h | h in hs :: LineOk(h)
    ensures var r := ParseText(HeadText(lead, RequestLineText(name, path, version), hs));
            var get, head := [71, 69, 84] <= name, [72, 69, 65, 68] <= name;
            if !get && !head then r == UnsupportedMethod
            else if !([72, 84, 84, 80, 47, 49, 46] <= version) then r == UnsupportedVersion
            else r == Parsed(Request(if get then Get else Head, path, LastUserAgent(hs, []), LastHost(hs, [])))
  {
    var line := RequestLineText(name, path, version);
    assert Free(line, LINE_ENDS);
    HeadSplits(lead, line, hs);
    ParseLine(name, path, version);
    ApplyLines(Request(if StartsWith(name, GET) then Get else Head, path, [], []), hs);
  }

  /** "HTTP/1.1" and "HTTP/1.0" are accepted, with either method. */
  lemma OrdinaryRequest(lead: nat, m: Method, path: CString, minor: byte, hs: seq<HeaderLine>)
    requires path != [] && Free(path, SPACE + LINE_ENDS) && (minor == 48 || minor == 49)
    requires forall h | h in hs :: LineOk(h)
    ensures var name := if m == Get then [71, 69, 84] else [72, 69, 65, 68];
            ParseText(HeadText(lead, RequestLineText(name, path, [72, 84, 84, 80, 47, 49, 46, minor]), hs)) ==
            Parsed(Request(m, path, LastUserAgent(hs, []), LastHost(hs, [])))
  {
    var name: CString := if m == Get then [71, 69, 84] else [72, 69, 65, 68];
    var version: CString := [72, 84, 84, 80, 47, 49, 46, minor];
    assert version[..7] == [72, 84, 84, 80, 47, 49, 46];
    assert m == Head ==> name[0] != 71;
    AcceptedRequests(lead, name, path, version, hs);
  }

  /** Of several lines of a kind the last one counts, and without one the field stays as it is. */
  lemma {:induction false} LastLineCounts(hs: seq<HeaderLine>, default: CString, i: nat)
    requires i < |hs|
    ensures hs[i].HostLine? && (forall j | i < j < |hs| :: !hs[j].HostLine?) ==>
              LastHost(hs, default) == hs[i].value
    ensures hs[i].UserAgentLine? && (forall j | i < j < |hs| :: !hs[j].UserAgentLine?) ==>
              LastUserAgent(hs, default) == hs[i].value
  {
    var n := |hs| - 1;
    if i < n {
      assert hs[n] == hs[|hs| - 1];
      LastLineCounts(hs[..n], default, i);
    }
  }

  lemma {:induction false} NoSuchLine(hs: seq<HeaderLine>, default: CString)
    ensures (forall h | h in hs :: !h.HostLine?) ==> LastHost(hs, default) == default
    ensures (forall h | h in hs :: !h.UserAgentLine?) ==> LastUserAgent(hs, default) == default
  {
    if hs != [] {
      NoSuchLine(hs[..|hs| - 1], default);
    }
  }

  /** The request line "GET path HTTP/1.1" in bytes. */
  function GetLine(path: CString): CString {
    [71, 69, 84, 32] + path + [32, 72, 84, 84, 80, 47, 49, 46, 49]
  }

  /** The lines "Host: host" and "User-Agent: agent" in bytes, and the empty line behind them. */
  function HostAndAgent(host: CString, agent: CString): CString {
    [72, 111, 115, 116, 58, 32] + host + [13, 10] +
    ([85, 115, 101, 114, 45, 65, 103, 101, 110, 116, 58, 32] + agent + [13, 10]) + [13, 10]
  }

  lemma GetLineText(path: CString)
    ensures GetLine(path) == RequestLineText([71, 69, 84], path, [72, 84, 84, 80, 47, 49, 46, 49])
  {
    var front: CString, back: CString := [71, 69, 84], [72, 84, 84, 80, 47, 49, 46, 49];
    assert [71, 69, 84, 32] == front + [SP] && [32, 72, 84, 84, 80, 47, 49, 46, 49] == [SP] + back;
  }

  lemma HostAndAgentText(host: CString, agent: CString)
    ensures HostAndAgent(host, agent) == Lines([HostLine(host), UserAgentLine(agent)]) + CRLF
  {
    var hs := [HostLine(host), UserAgentLine(agent)];
    assert hs[1..] == [UserAgentLine(agent)] && hs[1..][1..] == [];
    assert Lines(hs[1..]) == USER_AGENT + agent + CRLF;
    assert Lines(hs) == HOST + host + CRLF + Lines(hs[1..]);
  }

  /** All four fields of an ordinary GET request, which is given here in bytes. */
  lemma PlainGet(path: CString, host: CString, agent: CString)
    requires path != [] && Free(path, SPACE + LINE_ENDS) && Free(host, LINE_ENDS) && Free(agent, LINE_ENDS)
    ensures ParseText(GetLine(path) + [13, 10] + HostAndAgent(host, agent)) ==
            Parsed(Request(Get, path, agent, host))
  {
    var hs := [HostLine(host), UserAgentLine(agent)];
    OrdinaryRequest(0, Get, path, 49, hs);
    LastLineCounts(hs, [], 0);
    LastLineCounts(hs, [], 1);
    GetLineText(path);
    HostAndAgentText(host, agent);
    HeadInParts(GetLine(path), hs);
  }

  lemma HeadInParts(line: CString, hs: seq<HeaderLine>)
    ensures line + [13, 10] + (Lines(hs) + CRLF) == HeadText(0, line, hs)
  {
    assert EmptyLines(0) + line == line;
    assert line + CRLF + Lines(hs) + CRLF == line + CRLF + (Lines(hs) + CRLF);
  }

  /** Of printed requests, those with a missing word in their request line make the parser fail, and only those. */
  lemma PrintedNullToken(lead: nat, line: CString, hs: seq<HeaderLine>)
    requires line != [] && Free(line, LINE_ENDS)
    ensures ParseText(HeadText(lead, line, hs)) == NullToken <==> MissingWord(line)
  {
    HeadSplits(lead, line, hs);
    NullTokenInRequest(HeadText(lead, line, hs));
  }

  lemma TwoWords(a: CString, b: CString)
    requires a != [] && Free(a, SPACE) && b != [] && Free(b, SPACE)
    ensures Words(a + [SP] + b) == [a, b]
  {
    FirstWord(a, b);
    OneWord(b);
  }

  lemma OneWord(a: CString)
    requires a != [] && Free(a, SPACE)
    ensures Words(a) == [a]
  {
    LastToken(a, SPACE);
    NoWords();
  }

  lemma NoWords()
    ensures Words([]) == []
  {
    NoToken([], SPACE);
  }

  /** A request without a protocol version is such a request, whatever its method, path and header lines. */
  lemma NoVersion(lead: nat, m: Method, path: CString, hs: seq<HeaderLine>)
    requires path != [] && Free(path, SPACE + LINE_ENDS)
    ensures ParseText(HeadText(lead, MethodText(m) + [SP] + path, hs)) == NullToken
  {
    var name := MethodText(m);
    assert Free(name, LINE_ENDS + SPACE);
    assert Free(name + [SP] + path, LINE_ENDS);
    TwoWords(name, path);
    PrintedNullToken(lead, name + [SP] + path, hs);
  }
}
