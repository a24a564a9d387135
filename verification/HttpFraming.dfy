/** Where the blank line that ends a message head is found, in requests and in responses. */
module HttpFraming {
  import opened CBytes
  import opened Strutils
  import opened HttpText
  import opened HttpRoundTrip
  import opened RequestReader

  function JoinLines(ls: seq<CString>): CString {
    if ls == [] then [] else ls[0] + CRLF + JoinLines(ls[1..])
  }

  /** Lines, each ended by CRLF, and the empty line behind them. */
  function Block(ls: seq<CString>): CString {
    JoinLines(ls) + CRLF
  }

  predicate LineTextOk(l: CString) {
    l != [] && Free(l, LINE_ENDS)
  }

  /** CRLFCRLF at `k` means four particular bytes there. */
  lemma BlankAt(t: seq<byte>, k: nat)
    ensures At(t, k, CRLFCRLF) <==>
            k + 4 <= |t| && t[k] == CR && t[k + 1] == LF && t[k + 2] == CR && t[k + 3] == LF
  {
    if k + 4 <= |t| {
      assert t[k..k + 4] == [t[k], t[k + 1], t[k + 2], t[k + 3]];
    }
  }

  /** A line in front: a blank line at `k` of the longer text is one of the shorter text, or ends this line. */
  lemma BlankBehindLine(l: CString, rest: seq<byte>, k: nat)
    requires LineTextOk(l)
    ensures At(l + CRLF + rest, k, CRLFCRLF) <==>
              (k == |l| && 2 <= |rest| && rest[0] == CR && rest[1] == LF) ||
              (k >= |l| + 2 && At(rest, k - |l| - 2, CRLFCRLF))
  {
    var t := l + CRLF + rest;
    BlankAt(t, k);
    if k < |l| {
      assert t[k] == l[k] && l[k] in l;
    } else if k >= |l| + 2 {
      BlankAt(rest, k - |l| - 2);
    }
  }

  /** In a block followed by anything, the first CRLFCRLF is the one that ends the block. */
  lemma {:induction false} FirstBlank(ls: seq<CString>, body: seq<byte>, k: nat)
    requires ls != [] && forall l | l in ls :: LineTextOk(l)
    ensures At(Block(ls) + body, k, CRLFCRLF) ==> k >= |Block(ls)| - 4 >= 0
    ensures |Block(ls)| >= 4 && At(Block(ls) + body, |Block(ls)| - 4, CRLFCRLF)
  {
    var l, more := ls[0], ls[1..];
    var rest := Block(more) + body;
    BlockCons(ls, body);
    BlankBehindLine(l, rest, k);
    BlankBehindLine(l, rest, |Block(ls)| - 4);
    if more == [] {
      assert rest == CRLF + body;
    } else {
      BlockStart(more, body);
      FirstBlank(more, body, if k >= |l| + 2 then k - |l| - 2 else 0);
    }
  }

  lemma BlockCons(ls: seq<CString>, body: seq<byte>)
    requires ls != []
    ensures Block(ls) + body == ls[0] + CRLF + (Block(ls[1..]) + body)
    ensures |Block(ls)| == |ls[0]| + 2 + |Block(ls[1..])|
  {}

  lemma BlockStart(ls: seq<CString>, body: seq<byte>)
    requires ls != [] && LineTextOk(ls[0])
    ensures (Block(ls) + body)[0] != CR
  {
    assert ls[0][0] in ls[0];
    assert (Block(ls) + body)[0] == ls[0][0];
  }

  lemma BlankBehindEmptyLine(rest: seq<byte>, k: nat)
    ensures At(CRLF + rest, k, CRLFCRLF) <==>
              (k == 0 && 2 <= |rest| && rest[0] == CR && rest[1] == LF) || (k >= 2 && At(rest, k - 2, CRLFCRLF))
  {
    BlankAt(CRLF + rest, k);
    if k >= 2 {
      BlankAt(rest, k - 2);
    }
  }

  // ---- Requests ----

  function Texts(hs: seq<HeaderLine>): seq<CString> {
    if hs == [] then [] else [LineText(hs[0])] + Texts(hs[1..])
  }

  lemma {:induction false} LinesAreJoined(hs: seq<HeaderLine>)
    requires forall h | h in hs :: LineOk(h)
    ensures JoinLines(Texts(hs)) == Lines(hs)
    ensures forall l | l in Texts(hs) :: LineTextOk(l)
  {
    if hs != [] {
      LinesAreJoined(hs[1..]);
      assert hs[0] in hs;
      LineTextIsOk(hs[0]);
    }
  }

  lemma LineTextIsOk(h: HeaderLine)
    requires LineOk(h)
    ensures LineTextOk(LineText(h))
  {
    match h
    case HostLine(v) => assert (HOST + v)[0] == 72;
    case UserAgentLine(v) => assert (USER_AGENT + v)[0] == 85;
    case OtherLine(_) =>
  }

  /** The request head, as the block of its lines behind the empty ones. */
  lemma HeadIsBlock(lead: nat, line: CString, hs: seq<HeaderLine>) returns (ls: seq<CString>)
    requires LineTextOk(line) && forall h | h in hs :: LineOk(h)
    ensures ls != [] && forall l | l in ls :: LineTextOk(l)
    ensures HeadText(lead, line, hs) == EmptyLines(lead) + Block(ls)
    ensures Block(ls)[0] != CR
  {
    ls := [line] + Texts(hs);
    LinesAreJoined(hs);
    assert ls[1..] == Texts(hs);
    assert line[0] in line;
    assert Block(ls) == line + CRLF + Lines(hs) + CRLF;
  }

  lemma BehindEmptyLine(line: CString, hs: seq<HeaderLine>, block: CString, more: seq<byte>)
    requires HeadText(1, line, hs) == EmptyLines(1) + block
    ensures HeadText(1, line, hs) + more == CRLF + (block + more) && |HeadText(1, line, hs)| == 2 + |block|
  {
    assert EmptyLines(1) == CRLF + EmptyLines(0);
  }

  /** A head behind at most one empty line has its first CRLFCRLF at its end. */
  lemma HeadEndsAtBlank(lead: nat, line: CString, hs: seq<HeaderLine>, more: seq<byte>, k: nat)
    requires lead <= 1 && LineTextOk(line) && forall h | h in hs :: LineOk(h)
    ensures var n := |HeadText(lead, line, hs)|;
            && (At(HeadText(lead, line, hs) + more, k, CRLFCRLF) ==> k >= n - 4)
            && n >= 4 && At(HeadText(lead, line, hs) + more, n - 4, CRLFCRLF)
  {
    var ls := HeadIsBlock(lead, line, hs);
    var text, n := HeadText(lead, line, hs), |HeadText(lead, line, hs)|;
    if lead == 0 {
      assert text == Block(ls);
      FirstBlank(ls, more, k);
    } else {
      BehindEmptyLine(line, hs, Block(ls), more);
      FirstBlank(ls, more, if k >= 2 then k - 2 else 0);
      BlankBehindEmptyLine(Block(ls) + more, k);
      BlankBehindEmptyLine(Block(ls) + more, n - 4);
    }
  }

  /** `ReadRequest` takes exactly the prefixes that contain the head for complete. */
  ghost predicate FramedExactly(head: CString, wire: seq<byte>) {
    forall n: nat | n <= |wire| :: HeadComplete(wire[..n]) <==> n >= |head|
  }

  lemma PrefixComplete(head: CString, more: seq<byte>, n: nat)
    requires n <= |head + more| && |head| >= 4
    requires At(head + more, |head| - 4, CRLFCRLF)
    requires forall k: nat :: At(head + more, k, CRLFCRLF) ==> k >= |head| - 4
    ensures HeadComplete((head + more)[..n]) <==> n >= |head|
  {
    var wire := head + more;
    var got := wire[..n];
    if n >= |head| {
      var k: nat := |head| - 4;
      BlankAt(wire, k);
      BlankAt(got, k);
      assert got[..k] == head[..k];
      assert Occurs(got, CRLFCRLF, |got|, k);
    } else if HeadComplete(got) {
      var k: nat :| Occurs(got, CRLFCRLF, |got|, k);
      BlankAt(got, k);
      BlankAt(wire, k);
    }
  }

  /**
   However a printed request is cut into reads, reading stops exactly when its head has arrived, if and
   only if it starts with at most one empty line. With two, they alone are taken for a complete head.
   */
  lemma RequestFraming(lead: nat, line: CString, hs: seq<HeaderLine>, more: seq<byte>)
    requires LineTextOk(line) && forall h | h in hs :: LineOk(h)
    ensures FramedExactly(HeadText(lead, line, hs), HeadText(lead, line, hs) + more) <==> lead <= 1
  {
    var head := HeadText(lead, line, hs);
    var wire := head + more;
    if lead <= 1 {
      forall k: nat
        ensures At(wire, k, CRLFCRLF) ==> k >= |head| - 4
      {
        HeadEndsAtBlank(lead, line, hs, more, k);
      }
      HeadEndsAtBlank(lead, line, hs, more, 0);
      forall n: nat | n <= |wire|
        ensures HeadComplete(wire[..n]) <==> n >= |head|
      {
        PrefixComplete(head, more, n);
      }
    } else {
      TwoEmptyLines(lead, line, hs, more);
    }
  }

  lemma TwoEmptyLines(lead: nat, line: CString, hs: seq<HeaderLine>, more: seq<byte>)
    requires lead >= 2 && line != []
    ensures var head := HeadText(lead, line, hs);
            |head| > 4 && HeadComplete((head + more)[..4])
  {
    var head := HeadText(lead, line, hs);
    assert EmptyLines(lead) == CRLF + (CRLF + EmptyLines(lead - 2));
    var got := (head + more)[..4];
    assert got == CRLFCRLF;
    assert Occurs(got, CRLFCRLF, |got|, 0);
  }

  /**
   From the wire to the four fields: a printed request behind at most one empty line, with nothing after its
   blank line, is parsed into what was printed as soon as, and only when, `ReadRequest` reports its end,
   whatever lies in the buffer behind the NUL that must follow the received bytes.
   */
  lemma ReceivedRequestParses(lead: nat, m: Method, path: CString, version: CString, hs: seq<HeaderLine>,
                              memory: seq<byte>, consumed: nat)
    requires lead <= 1 && path != [] && Free(path, SPACE + LINE_ENDS)
    requires StartsWith(version, HTTP_1) && Free(version, SPACE + LINE_ENDS)
    requires forall h | h in hs :: LineOk(h)
    requires var wire := HeadText(lead, RequestLineText(MethodText(m), path, version), hs);
             && consumed <= |wire| && consumed < |memory| && memory[..consumed] == wire[..consumed]
             && memory[consumed] == NUL && HeadComplete(wire[..consumed])
    ensures ParseText(CStr(memory)) == Parsed(Request(m, path, LastUserAgent(hs, []), LastHost(hs, [])))
  {
    var line := RequestLineText(MethodText(m), path, version);
    var wire := HeadText(lead, line, hs);
    assert LineTextOk(line) by {
      assert Free(MethodText(m), LINE_ENDS);
    }
    RequestFraming(lead, line, hs, []);
    assert wire + [] == wire && wire[..|wire|] == wire;
    assert consumed == |wire|;
    CStrUnique(memory, wire);
    ParseUndoesPrint(lead, m, path, version, hs);
  }

  /** An ordinary GET request, in bytes, is complete with its last byte. */
  lemma PlainGetIsReceived(path: CString, host: CString, agent: CString, n: nat)
    requires path != [] && Free(path, SPACE + LINE_ENDS) && Free(host, LINE_ENDS) && Free(agent, LINE_ENDS)
    ensures var wire := GetLine(path) + [13, 10] + HostAndAgent(host, agent);
            n <= |wire| ==> (HeadComplete(wire[..n]) <==> n == |wire|)
  {
    var hs := [HostLine(host), UserAgentLine(agent)];
    HostAndAgentText(host, agent);
    HeadInParts(GetLine(path), hs);
    RequestFraming(0, GetLine(path), hs, []);
    assert HeadText(0, GetLine(path), hs) + [] == HeadText(0, GetLine(path), hs);
  }

  /** Such a request is received like any other: "GET /" and an empty line. */
  lemma NullTokenIsReceivable()
    ensures var t: CString := [71, 69, 84, SP, 47, CR, LF, CR, LF];
            HeadComplete(t) && ParseText(t) == NullToken
  {
    var t: CString := [71, 69, 84, SP, 47, CR, LF, CR, LF];
    assert t == HeadText(0, MethodText(Get) + [SP] + [47], []);
    NoVersion(0, Get, [47], []);
    BlankAt(t, 5);
    assert Occurs(t, CRLFCRLF, |t|, 5);
  }
}
