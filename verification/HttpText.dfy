/** Requests as text: what `ParseHttpRequest` makes of a request, string by string. */
module HttpText {
  import opened CBytes

  const LINE_ENDS: set<byte> := {CR, LF}
  const SPACE: set<byte> := {SP}

  const GET: CString := [71, 69, 84]                          // "GET"
  const HEAD: CString := [72, 69, 65, 68]                     // "HEAD"
  const HTTP_1: CString := [72, 84, 84, 80, 47, 49, 46]       // "HTTP/1.", the 7 bytes that are compared
  const USER_AGENT: CString := [85, 115, 101, 114, 45, 65, 103, 101, 110, 116, 58, 32]  // "User-Agent: "
  const HOST: CString := [72, 111, 115, 116, 58, 32]          // "Host: "

  datatype Method = Get | Head

  datatype Request = Request(method_: Method, path: CString, userAgent: CString, host: CString)

  /** `NullToken` stands for the reads through a null pointer that follow a missing token. */
  datatype Outcome =
    | Parsed(request: Request)
    | Empty
    | ParseError
    | UnsupportedMethod
    | UnsupportedVersion
    | NullToken

  /** One `strtok_r` call on a string: the token, if any, and what the next call continues with. */
  function NextToken(t: CString, delimiters: set<byte>): (r: (Option<CString>, CString))
    ensures r.0.Some? ==> r.0.value != [] && |r.0.value| + |r.1| <= |t|
    ensures r.0.Some? ==> forall c | c in r.0.value :: c !in delimiters
    ensures r.0.None? ==> r.1 == [] && forall c | c in t :: c in delimiters
  {
    var u := t[Spn(t, delimiters)..];
    if u == [] then (None, [])
    else
      var n := Cspn(u, delimiters);
      (Some(u[..n]), if n == |u| then [] else u[n + 1..])
  }

  function ApplyHeader(r: Request, line: CString): Request {
    if StartsWith(line, USER_AGENT) then r.(userAgent := line[12..])
    else if StartsWith(line, HOST) then r.(host := line[6..])
    else r
  }

  /** The loop over the header lines. */
  function ApplyHeaders(r: Request, rest: CString): Request
    decreases |rest|
  {
    var (line, more) := NextToken(rest, LINE_ENDS);
    if line == None then r else ApplyHeaders(ApplyHeader(r, line.value), more)
  }

  /** The request line: method, path, version. `Parsed` carries the method and the path only. */
  function RequestLine(line: CString): Outcome {
    var (method_, afterMethod) := NextToken(line, SPACE);
    if method_ == None then NullToken
    else if !StartsWith(method_.value, GET) && !StartsWith(method_.value, HEAD) then UnsupportedMethod
    else
      var (path, afterPath) := NextToken(afterMethod, SPACE);
      if path == None then NullToken
      else
        var (version, _) := NextToken(afterPath, SPACE);
        if version == None then NullToken
        else if !StartsWith(version.value, HTTP_1) then UnsupportedVersion
        else Parsed(Request(if StartsWith(method_.value, GET) then Get else Head, path.value, [], []))
  }

  function ParseText(t: CString): Outcome {
    var (line, rest) := NextToken(t, LINE_ENDS);
    if line == None then ParseError
    else
      var r := RequestLine(line.value);
      if r.Parsed? then Parsed(ApplyHeaders(r.request, rest)) else r
  }

  // ---- Missing tokens ----

  /** The words of a line, as repeated `strtok_r` calls find them. */
  function Words(t: CString): seq<CString>
    decreases |t|
  {
    var (word, rest) := NextToken(t, SPACE);
    if word == None then [] else [word.value] + Words(rest)
  }

  /** Too few words for the checks that the line gets to: an unsupported method is refused at its first word. */
  predicate MissingWord(line: CString) {
    var ws := Words(line);
    ws == [] || ((StartsWith(ws[0], GET) || StartsWith(ws[0], HEAD)) && |ws| < 3)
  }

  /** The parser reads through a null pointer exactly when the request line lacks a word that it looks at. */
  lemma NullTokenIsMissingWord(line: CString)
    ensures RequestLine(line) == NullToken <==> MissingWord(line)
  {
    var (method_, afterMethod) := NextToken(line, SPACE);
    if method_ != None {
      var (path, afterPath) := NextToken(afterMethod, SPACE);
      assert Words(line) == [method_.value] + Words(afterMethod);
      if path != None {
        var (version, rest) := NextToken(afterPath, SPACE);
        assert Words(afterMethod) == [path.value] + Words(afterPath);
        assert version != None ==> Words(afterPath) == [version.value] + Words(rest);
      }
    }
  }

  /** The same for a whole request: only the first line that is not empty counts. */
  lemma NullTokenInRequest(t: CString)
    ensures var line := NextToken(t, LINE_ENDS).0;
            ParseText(t) == NullToken <==> line.Some? && MissingWord(line.value)
  {
    var line := NextToken(t, LINE_ENDS).0;
    if line.Some? {
      NullTokenIsMissingWord(line.value);
    }
  }
}
