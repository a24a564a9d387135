/** Responses in src/server/request.c: heads are printed into a growable buffer, then written in pieces. */
module Response {
  import opened CBytes
  import opened DynamicStrings
  import opened HttpText
  import opened HttpRoundTrip
  import opened HttpFraming
  import opened RequestReader

  const INITIAL_RESPONSE_HEADER_SIZE: nat := 1024

  const HTTP_1_1: CString := [72, 84, 84, 80, 47, 49, 46, 49]                      // "HTTP/1.1"
  const OK_STATUS: CString := [50, 48, 48, 32, 79, 75]                             // "200 OK"
  const FORBIDDEN_STATUS: CString := [52, 48, 51, 32, 70, 111, 114, 98, 105, 100, 100, 101, 110]
  const NOT_FOUND_STATUS: CString := [52, 48, 52, 32, 78, 111, 116, 32, 70, 111, 117, 110, 100]
  const UNSUPPORTED_METHOD_STATUS: CString :=                                      // "405 Method Not Allowed"
    [52, 48, 53, 32, 77, 101, 116, 104, 111, 100, 32, 78, 111, 116, 32, 65, 108, 108, 111, 119, 101, 100]
  const CONTENT_TYPE: CString := [67, 111, 110, 116, 101, 110, 116, 45, 84, 121, 112, 101, 58, 32]
  const CONTENT_LENGTH: CString := [67, 111, 110, 116, 101, 110, 116, 45, 76, 101, 110, 103, 116, 104, 58, 32]
  const DATE: CString := [68, 97, 116, 101, 58, 32]                                // "Date: "
  const LAST_MODIFIED: CString := [76, 97, 115, 116, 45, 77, 111, 100, 105, 102, 105, 101, 100, 58, 32]

  // ---- Numbers ----

  function Digit(d: nat): byte
    requires d < 10
  {
    48 + d as byte
  }

  predicate Digits(t: seq<byte>) {
    forall i :: 0 <= i < |t| ==> 48 <= t[i] <= 57
  }

  /** `%zu`. */
  function Decimal(n: nat): (t: CString)
    ensures t != [] && Digits(t)
  {
    if n < 10 then [Digit(n)] else Decimal(n / 10) + [Digit(n % 10)]
  }

  function Value(t: seq<byte>): nat
    requires Digits(t)
  {
    if t == [] then 0 else 10 * Value(t[..|t| - 1]) + (t[|t| - 1] as nat - 48)
  }

  /** The printed length reads back as the length. */
  lemma {:induction false} DecimalRoundTrip(n: nat)
    ensures Value(Decimal(n)) == n
  {
    if n >= 10 {
      DecimalRoundTrip(n / 10);
      var p := Decimal(n / 10);
      assert (p + [Digit(n % 10)])[..|p|] == p;
    } else {
      assert [Digit(n)][..0] == [];
    }
  }

  /** It is printed digit by digit, to base ten and without a leading zero. */
  lemma DecimalDigits(n: nat, d: nat)
    requires d < 10
    ensures Decimal(d) == [48 + d as byte]
    ensures n > 0 ==> Decimal(10 * n + d) == Decimal(n) + [48 + d as byte]
  {
  }

  // ---- Printing ----

  /** `_WriteStatusLine`. */
  method WriteStatusLine(buffer: DynamicString, version: CString, status: CString)
    requires buffer.Valid()
    modifies buffer, buffer.data
    ensures buffer.Valid() && (buffer.data == old(buffer.data) || fresh(buffer.data))
    ensures buffer.Contents() == JoinLines([version + [SP] + status])
  {
    buffer.Set(version);
    buffer.Append([SP]);
    buffer.Append(status);
    buffer.Append(CRLF);
    JoinLinesOne(version + [SP] + status);
    assert buffer.Contents() == version + [SP] + status + CRLF;
  }

  /** `_AddHeader`. */
  method AddHeader(buffer: DynamicString, header: CString, value: CString, ghost ls: seq<CString>)
    requires buffer.Valid() && buffer.Contents() == JoinLines(ls)
    modifies buffer, buffer.data
    ensures buffer.Valid() && (buffer.data == old(buffer.data) || fresh(buffer.data))
    ensures buffer.Contents() == JoinLines(ls + [header + value])
  {
    buffer.Append(header);
    buffer.Append(value);
    buffer.Append(CRLF);
    JoinLinesSnoc(ls, header + value);
    assert buffer.Contents() == JoinLines(ls) + (header + value + CRLF);
  }

  lemma JoinLinesOne(l: CString)
    ensures JoinLines([l]) == l + CRLF
  {
    assert [l][1..] == [];
  }

  lemma {:induction false} JoinLinesSnoc(ls: seq<CString>, l: CString)
    ensures JoinLines(ls + [l]) == JoinLines(ls) + (l + CRLF)
  {
    if ls == [] {
      JoinLinesOne(l);
      assert [] + [l] == [l];
    } else {
      assert (ls + [l])[1..] == ls[1..] + [l];
      JoinLinesSnoc(ls[1..], l);
      assert JoinLines(ls + [l]) == ls[0] + CRLF + (JoinLines(ls[1..]) + (l + CRLF));
    }
  }

  function StatusLine(status: CString): CString {
    HTTP_1_1 + [SP] + status
  }

  function OkLines(contentType: CString, length: nat, date: CString, lastModified: CString): seq<CString> {
    [StatusLine(OK_STATUS)] + [CONTENT_TYPE + contentType] + [CONTENT_LENGTH + Decimal(length)] +
    [DATE + date] + [LAST_MODIFIED + lastModified]
  }

  /** `PrepareHttpResponseOk`. */
  method PrepareOk(contentType: CString, length: nat, date: CString, lastModified: CString)
    returns (buffer: DynamicString)
    ensures fresh(buffer) && buffer.Valid()
    ensures buffer.Contents() == Block(OkLines(contentType, length, date, lastModified))
  {
    buffer := new DynamicString(INITIAL_RESPONSE_HEADER_SIZE);
    WriteStatusLine(buffer, HTTP_1_1, OK_STATUS);
    ghost var ls := [StatusLine(OK_STATUS)];
    AddHeader(buffer, CONTENT_TYPE, contentType, ls);
    ls := ls + [CONTENT_TYPE + contentType];
    AddHeader(buffer, CONTENT_LENGTH, Decimal(length), ls);
    ls := ls + [CONTENT_LENGTH + Decimal(length)];
    AddHeader(buffer, DATE, date, ls);
    ls := ls + [DATE + date];
    AddHeader(buffer, LAST_MODIFIED, lastModified, ls);
    buffer.Append(CRLF);
  }

  /** `PrepareHttpResponseForbidden`, `...NotFound` and `...UnsupportedMethod`. */
  method PrepareError(status: CString) returns (buffer: DynamicString)
    ensures fresh(buffer) && buffer.Valid()
    ensures buffer.Contents() == Block([StatusLine(status)])
  {
    buffer := new DynamicString(INITIAL_RESPONSE_HEADER_SIZE);
    WriteStatusLine(buffer, HTTP_1_1, status);
    buffer.Append(CRLF);
  }

  lemma FieldOk(name: CString, value: CString)
    requires LineTextOk(name) && Free(value, LINE_ENDS)
    ensures LineTextOk(name + value)
  {}

  /** The four status lines and the four field names hold no line end. */
  lemma StatusLinesOk()
    ensures forall s | s in {OK_STATUS, FORBIDDEN_STATUS, NOT_FOUND_STATUS, UNSUPPORTED_METHOD_STATUS} ::
              LineTextOk(StatusLine(s))
  {
    assert Free(HTTP_1_1 + [SP], LINE_ENDS);
    assert Free(OK_STATUS, LINE_ENDS);
    assert Free(FORBIDDEN_STATUS, LINE_ENDS);
    assert Free(NOT_FOUND_STATUS, LINE_ENDS);
    assert Free(UNSUPPORTED_METHOD_STATUS, LINE_ENDS);
  }

  lemma FieldNamesOk()
    ensures LineTextOk(CONTENT_TYPE) && LineTextOk(CONTENT_LENGTH) && LineTextOk(DATE) && LineTextOk(LAST_MODIFIED)
  {}

  /** The lines of the head, each in one piece. */
  lemma OkLinesOk(contentType: CString, length: nat, date: CString, lastModified: CString) returns (ls: seq<CString>)
    requires Free(contentType, LINE_ENDS) && Free(date, LINE_ENDS) && Free(lastModified, LINE_ENDS)
    ensures ls == OkLines(contentType, length, date, lastModified) && |ls| == 5
    ensures forall l | l in ls :: LineTextOk(l)
    ensures ls[0] == StatusLine(OK_STATUS) && ls[1] == CONTENT_TYPE + contentType
    ensures ls[2] == CONTENT_LENGTH + Decimal(length) && ls[3] == DATE + date && ls[4] == LAST_MODIFIED + lastModified
  {
    ls := OkLines(contentType, length, date, lastModified);
    StatusLinesOk();
    FieldNamesOk();
    FieldOk(CONTENT_TYPE, contentType);
    FieldOk(CONTENT_LENGTH, Decimal(length));
    FieldOk(DATE, date);
    FieldOk(LAST_MODIFIED, lastModified);
  }

  /**
   A receiver that splits a response at its first blank line gets the printed head and the body,
   whatever the body contains.
   */
  lemma OkFraming(contentType: CString, length: nat, date: CString, lastModified: CString, body: seq<byte>, k: nat)
    requires Free(contentType, LINE_ENDS) && Free(date, LINE_ENDS) && Free(lastModified, LINE_ENDS)
    ensures var head := Block(OkLines(contentType, length, date, lastModified));
            && |head| >= 4 && At(head + body, |head| - 4, CRLFCRLF)
            && (At(head + body, k, CRLFCRLF) ==> k >= |head| - 4)
  {
    var ls := OkLinesOk(contentType, length, date, lastModified);
    FirstBlank(ls, body, k);
  }

  /** The same for a response that is a status line only, with anything behind it. */
  lemma ErrorFraming(status: CString, more: seq<byte>, k: nat)
    requires status in {FORBIDDEN_STATUS, NOT_FOUND_STATUS, UNSUPPORTED_METHOD_STATUS}
    ensures var head := Block([StatusLine(status)]);
            && |head| >= 4 && At(head + more, |head| - 4, CRLFCRLF)
            && (At(head + more, k, CRLFCRLF) ==> k >= |head| - 4)
  {
    StatusLinesOk();
    FirstBlank([StatusLine(status)], more, k);
  }

  // ---- Reading a field back ----

  /** The value of the first line of a head that starts with `name`. */
  function Field(t: CString, name: CString): Option<CString>
    decreases |t|
  {
    var (line, rest) := NextToken(t, LINE_ENDS);
    if line == None then None
    else if StartsWith(line.value, name) then Some(line.value[|name|..])
    else Field(rest, name)
  }

  lemma FirstOfBlock(skip: CString, ls: seq<CString>)
    requires (forall c | c in skip :: c in LINE_ENDS) && ls != [] && LineTextOk(ls[0])
    ensures NextToken(skip + Block(ls), LINE_ENDS) == (Some(ls[0]), [LF] + Block(ls[1..]))
  {
    var l, rest := ls[0], Block(ls[1..]);
    BlockCons(ls, []);
    CutAfterCr(skip + l, rest, []);
    assert skip + Block(ls) == skip + l + CRLF + rest + [];
    assert rest + [] == rest;
    TokenThenRest(skip, l, CR, [LF] + rest, LINE_ENDS);
  }

  /** Line by line, a block gives back the first of its lines with that name. */
  lemma {:induction false} FieldOfBlock(skip: CString, ls: seq<CString>, name: CString, i: nat)
    requires forall c | c in skip :: c in LINE_ENDS
    requires i < |ls| && (forall l | l in ls :: LineTextOk(l))
    requires (forall j :: 0 <= j < i ==> !StartsWith(ls[j], name)) && StartsWith(ls[i], name)
    ensures Field(skip + Block(ls), name) == Some(ls[i][|name|..])
    decreases i
  {
    assert ls[0] in ls;
    FirstOfBlock(skip, ls);
    if i > 0 {
      FieldOfBlock([LF], ls[1..], name, i - 1);
    }
  }

  /** The Content-Length line of the head that is sent reads back as the length that was put in. */
  lemma ContentLengthReadsBack(contentType: CString, length: nat, date: CString, lastModified: CString)
    requires Free(contentType, LINE_ENDS) && Free(date, LINE_ENDS) && Free(lastModified, LINE_ENDS)
    ensures var field := Field(Block(OkLines(contentType, length, date, lastModified)),
                               [67, 111, 110, 116, 101, 110, 116, 45, 76, 101, 110, 103, 116, 104, 58, 32]);
            field.Some? && Digits(field.value) && Value(field.value) == length
  {
    var ls := OkLinesOk(contentType, length, date, lastModified);
    assert ls[0][0] != CONTENT_LENGTH[0] && ls[1][8] == CONTENT_TYPE[8] != CONTENT_LENGTH[8];
    FieldOfBlock([], ls, CONTENT_LENGTH, 2);
    assert [] + Block(ls) == Block(ls);
    assert ls[2][|CONTENT_LENGTH|..] == Decimal(length);
    DecimalRoundTrip(length);
  }

  /** The field "Content-Type: " reads back as the content type. */
  lemma ContentTypeReadsBack(contentType: CString, length: nat, date: CString, lastModified: CString)
    requires Free(contentType, LINE_ENDS) && Free(date, LINE_ENDS) && Free(lastModified, LINE_ENDS)
    ensures Field(Block(OkLines(contentType, length, date, lastModified)),
                  [67, 111, 110, 116, 101, 110, 116, 45, 84, 121, 112, 101, 58, 32]) == Some(contentType)
  {
    var ls := OkLinesOk(contentType, length, date, lastModified);
    assert ls[0][0] != CONTENT_TYPE[0];
    FieldOfBlock([], ls, CONTENT_TYPE, 1);
    assert [] + Block(ls) == Block(ls);
    assert ls[1][|CONTENT_TYPE|..] == contentType;
  }

  /** The field "Date: " reads back as the date of the response. */
  lemma DateReadsBack(contentType: CString, length: nat, date: CString, lastModified: CString)
    requires Free(contentType, LINE_ENDS) && Free(date, LINE_ENDS) && Free(lastModified, LINE_ENDS)
    ensures Field(Block(OkLines(contentType, length, date, lastModified)), [68, 97, 116, 101, 58, 32]) == Some(date)
  {
    var ls := OkLinesOk(contentType, length, date, lastModified);
    assert ls[0][0] != DATE[0] && ls[1][0] != DATE[0] && ls[2][0] != DATE[0];
    FieldOfBlock([], ls, DATE, 3);
    assert [] + Block(ls) == Block(ls);
    assert ls[3][|DATE|..] == date;
  }

  /** The field "Last-Modified: " reads back as the time of the last change of the file. */
  lemma LastModifiedReadsBack(contentType: CString, length: nat, date: CString, lastModified: CString)
    requires Free(contentType, LINE_ENDS) && Free(date, LINE_ENDS) && Free(lastModified, LINE_ENDS)
    ensures Field(Block(OkLines(contentType, length, date, lastModified)),
                  [76, 97, 115, 116, 45, 77, 111, 100, 105, 102, 105, 101, 100, 58, 32]) == Some(lastModified)
  {
    var ls := OkLinesOk(contentType, length, date, lastModified);
    assert ls[0][0] != LAST_MODIFIED[0] && ls[1][0] != LAST_MODIFIED[0];
    assert ls[2][0] != LAST_MODIFIED[0] && ls[3][0] != LAST_MODIFIED[0];
    FieldOfBlock([], ls, LAST_MODIFIED, 4);
    assert [] + Block(ls) == Block(ls);
    assert ls[4][|LAST_MODIFIED|..] == lastModified;
  }

  /** A head starts with its status line, whatever comes behind it. */
  lemma BlockStarts(ls: seq<CString>, more: seq<byte>)
    requires ls != []
    ensures ls[0] + [13, 10] <= Block(ls) + more
  {
    BlockCons(ls, more);
    assert Block(ls) + more == (ls[0] + [13, 10]) + (Block(ls[1..]) + more);
  }

  /** The status line of a 200 response: "HTTP/1.1 200 OK". */
  lemma OkStarts(contentType: CString, length: nat, date: CString, lastModified: CString, body: seq<byte>)
    ensures [72, 84, 84, 80, 47, 49, 46, 49, 32, 50, 48, 48, 32, 79, 75, 13, 10] <=
            Block(OkLines(contentType, length, date, lastModified)) + body
  {
    BlockStarts(OkLines(contentType, length, date, lastModified), body);
    assert OkLines(contentType, length, date, lastModified)[0] ==
           [72, 84, 84, 80, 47, 49, 46, 49, 32, 50, 48, 48, 32, 79, 75];
  }

  /** An error response is "HTTP/1.1 ", the status and an empty line. */
  lemma ErrorHead(status: CString)
    ensures Block([StatusLine(status)]) == [72, 84, 84, 80, 47, 49, 46, 49, 32] + status + [13, 10, 13, 10]
  {
    JoinLinesOne(StatusLine(status));
    assert HTTP_1_1 + [SP] == [72, 84, 84, 80, 47, 49, 46, 49, 32] && CRLF + CRLF == [13, 10, 13, 10];
    assert Block([StatusLine(status)]) == HTTP_1_1 + [SP] + status + (CRLF + CRLF);
  }

  /** The whole response "403 Forbidden". */
  lemma ForbiddenHead()
    ensures Block([StatusLine(FORBIDDEN_STATUS)]) ==
            [72, 84, 84, 80, 47, 49, 46, 49, 32] + [52, 48, 51, 32, 70, 111, 114, 98, 105, 100, 100, 101, 110] +
            [13, 10, 13, 10]
  {
    ErrorHead(FORBIDDEN_STATUS);
  }

  /** The whole response "404 Not Found". */
  lemma NotFoundHead()
    ensures Block([StatusLine(NOT_FOUND_STATUS)]) ==
            [72, 84, 84, 80, 47, 49, 46, 49, 32] + [52, 48, 52, 32, 78, 111, 116, 32, 70, 111, 117, 110, 100] +
            [13, 10, 13, 10]
  {
    ErrorHead(NOT_FOUND_STATUS);
  }

  /** The whole response "405 Method Not Allowed". */
  lemma UnsupportedMethodHead()
    ensures Block([StatusLine(UNSUPPORTED_METHOD_STATUS)]) ==
            [72, 84, 84, 80, 47, 49, 46, 49, 32] +
            [52, 48, 53, 32, 77, 101, 116, 104, 111, 100, 32, 78, 111, 116, 32, 65, 108, 108, 111, 119, 101, 100] +
            [13, 10, 13, 10]
  {
    ErrorHead(UNSUPPORTED_METHOD_STATUS);
  }

  // ---- What a receiver makes of it ----

  /** The first blank line of `wire` starts at `k`. */
  ghost predicate FirstBlankAt(wire: seq<byte>, k: nat) {
    At(wire, k, CRLFCRLF) && forall j: nat | j < k :: !At(wire, j, CRLFCRLF)
  }

  /** As many bytes lie behind the first blank line as the Content-Length line in front of it says. */
  ghost predicate LengthHolds(wire: seq<byte>) {
    forall k: nat | FirstBlankAt(wire, k) ::
      && NUL !in wire[..k + 4] && Announced(wire[..k + 4]).Some?
      && Announced(wire[..k + 4]).value == |wire[k + 4..]|
  }

  function Announced(head: CString): Option<nat> {
    var field := Field(head, CONTENT_LENGTH);
    if field.Some? && Digits(field.value) then Some(Value(field.value)) else None
  }

  /**
   A complete response announces the length of the body that a receiver finds in it if and only if the length that was
   put in is that of the bytes behind the head.
   */
  lemma AnnouncedLength(contentType: CString, length: nat, date: CString, lastModified: CString, body: seq<byte>)
    requires Free(contentType, LINE_ENDS) && Free(date, LINE_ENDS) && Free(lastModified, LINE_ENDS)
    ensures LengthHolds(Block(OkLines(contentType, length, date, lastModified)) + body) <==> length == |body|
  {
    var head := Block(OkLines(contentType, length, date, lastModified));
    var wire := head + body;
    ContentLengthReadsBack(contentType, length, date, lastModified);
    assert Announced(head) == Some(length);
    OkFraming(contentType, length, date, lastModified, body, 0);
    forall j: nat | j < |head| - 4
      ensures !At(wire, j, CRLFCRLF)
    {
      OkFraming(contentType, length, date, lastModified, body, j);
    }
    assert FirstBlankAt(wire, |head| - 4);
    assert wire[..|head| - 4 + 4] == head && wire[|head| - 4 + 4..] == body;
    forall k: nat | FirstBlankAt(wire, k)
      ensures k == |head| - 4
    {
      OkFraming(contentType, length, date, lastModified, body, k);
    }
  }
}
