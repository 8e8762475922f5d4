/** Requests as a client prints them, and what `src/https_serve.rs` makes of them: the ones it receives come
    back as they were sent, and every other one is refused with the status of its fault. */
module HttpRoundTrip {
  import opened Prelude
  import opened HttpText
  import opened HttpReader
  import opened HttpRequest
  import opened HttpAcceptance
  import opened HttpFailures
  import opened HttpResponse
  import opened HttpAnswers
  import opened HttpClient

  /** What a client sends. */
  datatype Message = Message(verb: bytes, target: bytes, fields: seq<(bytes, bytes)>, body: bytes)

  /** Text without line breaks and NUL. */
  predicate IsText(s: bytes) { IsUtf8(s) && 13 !in s && 10 !in s && 0 !in s }

  predicate IsFieldName(name: bytes) { name != [] && forall i | 0 <= i < |name| :: IsNameByte(name[i]) }

  predicate IsVerb(verb: bytes) {
    1 <= |verb| <= 20 && forall i | 0 <= i < |verb| :: 'A' as int <= verb[i] <= 'Z' as int
  }

  predicate IsTarget(target: bytes) { target != [] && target[0] == '/' as int && 0 !in target && 32 !in target }

  /** A method of upper-case letters, a target that is a path, and fields of a token and a text. */
  predicate IsPrintable(m: Message) {
    && IsVerb(m.verb) && IsTarget(m.target) && IsText(m.target)
    && forall i | 0 <= i < |m.fields| :: IsFieldName(m.fields[i].0) && IsText(m.fields[i].1)
  }

  function FirstLine(m: Message): bytes { m.verb + [SP] + (m.target + [SP] + Ascii("HTTP/1.1")) }

  function FieldLines(fields: seq<(bytes, bytes)>): (lines: seq<bytes>)
    ensures |lines| == |fields|
  {
    if fields == [] then [] else FieldLines(fields[..|fields| - 1]) + [PlainLine(fields[|fields| - 1])]
  }

  function PrintedHead(m: Message): bytes { Lines([FirstLine(m)] + FieldLines(m.fields)) + CRLF }

  function Printed(m: Message): bytes { PrintedHead(m) + m.body }

  /** The values given for a field, in order, without the white space around them. */
  function Given(fields: seq<(bytes, bytes)>, name: bytes): seq<bytes> {
    if fields == [] then []
    else
      var (n, value) := fields[|fields| - 1];
      var before := Given(fields[..|fields| - 1], name);
      if EqualIgnoringCase(n, name) then before + [Trim(value)] else before
  }

  predicate IsLowerCase(name: bytes) { forall i | 0 <= i < |name| :: !(65 <= name[i] <= 90) }

  // ------------------------------------------------------------------ the lines

  lemma {:induction false} Utf8Append(a: bytes, b: bytes)
    requires IsUtf8(a) && IsUtf8(b)
    ensures IsUtf8(a + b)
    decreases |a|
  {
    if a == [] {
      assert a + b == b;
    } else {
      var n := CharLength(a);
      Utf8Append(a[n..], b);
      assert (a + b)[n..] == a[n..] + b;
      SameChar(a, b);
    }
  }

  lemma SameChar(a: bytes, b: bytes)
    requires a != [] && CharLength(a) > 0
    ensures CharLength(a + b) == CharLength(a)
  {
  }

  lemma VisibleIsText(s: bytes)
    requires forall i | 0 <= i < |s| :: 32 < s[i] < 127
    ensures IsText(s) && SP !in s
  {
    AsciiIsUtf8(s);
  }

  lemma NameIsToken(name: bytes)
    requires IsFieldName(name)
    ensures IsToken(name) && IsText(name) && COLON !in name
  {
    assert forall b: byte :: IsNameByte(b) ==> IsTokenByte(b);
    VisibleIsText(name);
    TokenIsClean(name);
  }

  lemma TextAppend(a: bytes, b: bytes)
    requires IsText(a) && IsText(b)
    ensures IsText(a + b)
  {
    Utf8Append(a, b);
  }

  lemma FieldLineIsText(field: (bytes, bytes))
    requires IsFieldName(field.0) && IsText(field.1)
    ensures var line := PlainLine(field);
      && IsText(line) && IsLine(line) && IsFieldLine(line)
      && NameOf(line) == Lower(field.0) && ValueOf(line) == Trim(field.1)
  {
    var (name, value) := field;
    NameIsToken(name);
    FieldLineIs(name, value);
    FieldLineFacts(name, value);
    TrimSpace(value);
    assert Ascii(": ") == [COLON, SP];
    AsciiIsUtf8([COLON, SP]);
    TextAppend(name, [COLON, SP]);
    TextAppend(name + [COLON, SP], value);
  }

  lemma TrimSpace(value: bytes)
    ensures Trim([SP] + value) == Trim(value)
  {
    assert ([SP] + value)[1..] == value;
  }

  lemma VersionBytes()
    ensures HTTP11 == Ascii("HTTP/1.1") && forall i | 0 <= i < |HTTP11| :: 32 < HTTP11[i] < 127
  {
  }

  lemma HttpVersion()
    ensures HTTP11 == Ascii("HTTP/1.1") && IsText(HTTP11) && SP !in HTTP11
  {
    VersionBytes();
    VisibleIsText(HTTP11);
  }

  lemma FirstLineIsText(m: Message)
    requires IsPrintable(m)
    ensures IsText(FirstLine(m)) && IsLine(FirstLine(m))
  {
    HttpVersion();
    VisibleIsText(m.verb);
    AsciiIsUtf8([SP]);
    TextAppend(m.verb, [SP]);
    TextAppend(m.target, [SP]);
    TextAppend(m.target + [SP], HTTP11);
    TextAppend(m.verb + [SP], m.target + [SP] + HTTP11);
  }

  lemma ThreeParts(a: bytes, b: bytes, c: bytes)
    requires SP !in a && SP !in b && SP !in c
    ensures Split(a + [SP] + (b + [SP] + c), [SP]) == [a, b, c]
  {
    SplitAt(a, b + [SP] + c);
    SplitAt(b, c);
    SplitNone(c);
    assert [a] + ([b] + [c]) == [a, b, c];
  }

  lemma FirstLineSplits(m: Message)
    requires IsPrintable(m)
    ensures Split(FirstLine(m), [SP]) == [m.verb, m.target, HTTP11]
  {
    HttpVersion();
    VisibleIsText(m.verb);
    ThreeParts(m.verb, m.target, HTTP11);
  }

  lemma FirstLineIsRequestLine(m: Message)
    requires IsPrintable(m)
    ensures IsRequestLine(FirstLine(m))
  {
    FirstLineSplits(m);
  }

  ghost predicate AllText(lines: seq<bytes>) { forall l | l in lines :: IsText(l) && IsLine(l) }

  lemma {:induction false} FieldLinesAreText(fields: seq<(bytes, bytes)>)
    requires forall i | 0 <= i < |fields| :: IsFieldName(fields[i].0) && IsText(fields[i].1)
    ensures AllText(FieldLines(fields)) && forall l | l in FieldLines(fields) :: IsFieldLine(l)
    decreases |fields|
  {
    if fields != [] {
      FieldLinesAreText(fields[..|fields| - 1]);
      FieldLineIsText(fields[|fields| - 1]);
    }
  }

  lemma {:induction false} GivenIsRead(fields: seq<(bytes, bytes)>, name: bytes)
    requires forall i | 0 <= i < |fields| :: IsFieldName(fields[i].0) && IsText(fields[i].1)
    requires IsLowerCase(name)
    ensures Values(FieldLines(fields), name) == Given(fields, name)
    decreases |fields|
  {
    if fields != [] {
      var n := |fields| - 1;
      GivenIsRead(fields[..n], name);
      FieldLineIsText(fields[n]);
      ValuesAppend(FieldLines(fields[..n]), PlainLine(fields[n]), name);
      LowerIgnoresCase(fields[n].0, name);
    }
  }

  // ------------------------------------------------------------------ the block

  lemma {:induction false} LinesAreUtf8(lines: seq<bytes>)
    requires forall l | l in lines :: IsUtf8(l) && 0 !in l
    ensures IsUtf8(Lines(lines)) && 0 !in Lines(lines)
    decreases |lines|
  {
    if lines != [] {
      assert lines[0] in lines;
      LinesAreUtf8(lines[1..]);
      AsciiIsUtf8(CRLF);
      Utf8Append(lines[0], CRLF);
      Utf8Append(lines[0] + CRLF, Lines(lines[1..]));
    }
  }

  lemma TextOfBlock(front: seq<bytes>, last: bytes)
    requires AllLines(front + [last])
    ensures var head := Lines(front + [last]) + CRLF; |head| >= 4 && Text(head) == Lines(front) + last
  {
    OneMoreLine(front, last);
    TextOfLines(Lines(front) + last);
  }

  lemma TextIsClean(front: seq<bytes>, last: bytes)
    requires AllText(front + [last])
    ensures IsUtf8(Lines(front) + last) && 0 !in Lines(front) + last
  {
    assert last in front + [last];
    assert forall l | l in front :: l in front + [last];
    LinesAreUtf8(front);
    Utf8Append(Lines(front), last);
  }

  lemma TextBlockIsClean(lines: seq<bytes>)
    requires AllText(lines) && lines != []
    ensures |Lines(lines) + CRLF| >= 4 && IsClean(Lines(lines) + CRLF) && LinesOf(Lines(lines) + CRLF) == lines
  {
    LinesOfLines(lines);
    var front, last := lines[..|lines| - 1], lines[|lines| - 1];
    assert lines == front + [last];
    TextOfBlock(front, last);
    TextIsClean(front, last);
  }

  /** The block that the reader finds in front of a printed message. */
  lemma PrintedBlock(m: Message, limits: Limits)
    requires IsPrintable(m) && |PrintedHead(m)| <= limits.maxHeaderBytes
    ensures var stream := Printed(m);
      && Fits(stream, limits) && BlockOf(stream, limits) == PrintedHead(m) && |PrintedHead(m)| >= 4
      && IsClean(PrintedHead(m)) && LinesOf(PrintedHead(m)) == [FirstLine(m)] + FieldLines(m.fields)
  {
    var lines := [FirstLine(m)] + FieldLines(m.fields);
    FirstLineIsText(m);
    FieldLinesAreText(m.fields);
    TextBlockIsClean(lines);
    FirstBlankLine(lines, m.body);
  }

  // ------------------------------------------------------------------ what becomes of it

  /** The status of the refusal by the fields, None if they are fine: one Host, no Transfer-Encoding and no
      Expect, and at most one Content-Length, a number that fits 64 bits and the limit. */
  function FieldFault(m: Message, limits: Limits): Option<nat> {
    var hosts, lengths := Given(m.fields, Ascii("host")), Given(m.fields, Ascii("content-length"));
    var encodings, expects := Given(m.fields, Ascii("transfer-encoding")), Given(m.fields, Ascii("expect"));
    if |m.fields| > limits.maxHeaderCount then Some(431)
    else if |hosts| != 1 then Some(400)
    else if encodings != [] then Some(if lengths == [] then 501 else 400)
    else if expects != [] then Some(417)
    else if |lengths| > 1 || (|lengths| == 1 && NumberOf(lengths[0]).None?) then Some(400)
    else if |lengths| == 1 && NumberOf(lengths[0]).value > limits.maxBodyBytes then Some(413)
    else None
  }

  /** The number that the text is, if it is one of at most 64 bits. */
  function NumberOf(text: bytes): Option<nat> {
    if text != [] && (forall i | 0 <= i < |text| :: '0' as int <= text[i] <= '9' as int)
       && DecimalValue(text) < 0x1_0000_0000_0000_0000 then Some(DecimalValue(text))
    else None
  }

  /** The declared length of the body. */
  function Declared(m: Message): nat {
    var lengths := Given(m.fields, Ascii("content-length"));
    if lengths != [] && NumberOf(lengths[0]).Some? then NumberOf(lengths[0]).value else 0
  }

  lemma FieldNames()
    ensures HOST == Ascii("host") && IsLowerCase(HOST)
    ensures TRANSFER_ENCODING == Ascii("transfer-encoding") && IsLowerCase(TRANSFER_ENCODING)
    ensures EXPECT == Ascii("expect") && IsLowerCase(EXPECT)
    ensures CONTENT_LENGTH == Ascii("content-length") && IsLowerCase(CONTENT_LENGTH)
  {
  }

  /** The lines have the values that the message gives. */
  ghost predicate ShowsMessage(fields: seq<bytes>, m: Message) {
    && (forall l | l in fields :: IsFieldLine(l)) && |fields| == |m.fields|
    && Values(fields, HOST) == Given(m.fields, Ascii("host"))
    && Values(fields, CONTENT_LENGTH) == Given(m.fields, Ascii("content-length"))
    && Values(fields, TRANSFER_ENCODING) == Given(m.fields, Ascii("transfer-encoding"))
    && Values(fields, EXPECT) == Given(m.fields, Ascii("expect"))
  }

  lemma LinesShowMessage(m: Message)
    requires IsPrintable(m)
    ensures ShowsMessage(FieldLines(m.fields), m)
  {
    FieldNames();
    FieldLinesAreText(m.fields);
    GivenIsRead(m.fields, HOST);
    GivenIsRead(m.fields, CONTENT_LENGTH);
    GivenIsRead(m.fields, TRANSFER_ENCODING);
    GivenIsRead(m.fields, EXPECT);
  }

  lemma FaultIsRead(fields: seq<bytes>, m: Message, limits: Limits, status: nat)
    requires ShowsMessage(fields, m)
    ensures !HasBadField(fields, limits.maxHeaderCount)
    ensures FieldFault(m, limits) == Some(status) <==>
      || (status == 431 && HasTooManyFields(fields, limits.maxHeaderCount))
      || (FieldsOk(fields, limits.maxHeaderCount) && FramingFails(fields, limits.maxBodyBytes, status))
  {
  }

  lemma NoFaultIsRead(fields: seq<bytes>, m: Message, limits: Limits)
    requires ShowsMessage(fields, m)
    ensures FieldFault(m, limits) == None <==>
      && |fields| <= limits.maxHeaderCount && |Values(fields, HOST)| == 1
      && Values(fields, TRANSFER_ENCODING) == [] && Values(fields, EXPECT) == []
      && LengthsOk(Values(fields, CONTENT_LENGTH), limits.maxBodyBytes)
    ensures FieldFault(m, limits) == None ==> DeclaredLength(fields) == Declared(m)
  {
  }

  /** The verdict on a clean block with a request line and the fields of a message. */
  lemma BlockCases(block: bytes, m: Message, limits: Limits, status: nat)
    requires |block| >= 4 && IsClean(block) && IsRequestLine(LinesOf(block)[0])
    requires ShowsMessage(LinesOf(block)[1..], m)
    ensures HeadFails(block, limits, status) <==> FieldFault(m, limits) == Some(status)
    ensures IsAcceptable(block, limits) <==> FieldFault(m, limits) == None
    ensures FieldFault(m, limits) == None ==> DeclaredLength(LinesOf(block)[1..]) == Declared(m)
  {
    FaultIsRead(LinesOf(block)[1..], m, limits, status);
    NoFaultIsRead(LinesOf(block)[1..], m, limits);
  }

  lemma PrintedHeadCases(m: Message, limits: Limits, status: nat)
    requires IsPrintable(m) && |PrintedHead(m)| <= limits.maxHeaderBytes
    ensures |PrintedHead(m)| >= 4
    ensures HeadFails(PrintedHead(m), limits, status) <==> FieldFault(m, limits) == Some(status)
    ensures IsAcceptable(PrintedHead(m), limits) <==> FieldFault(m, limits) == None
    ensures FieldFault(m, limits) == None ==> DeclaredLength(LinesOf(PrintedHead(m))[1..]) == Declared(m)
  {
    PrintedBlock(m, limits);
    FirstLineIsRequestLine(m);
    LinesShowMessage(m);
    assert ([FirstLine(m)] + FieldLines(m.fields))[1..] == FieldLines(m.fields);
    BlockCases(PrintedHead(m), m, limits, status);
  }

  /** Every printed message whose head fits: it is refused with the status of its fault, or received as it
      was sent, with as many body bytes as it declares. The fields come back under their lower-case names,
      each with the last value given for it. */
  lemma PrintedIsReceivedOrRefused(m: Message, ending: Ending, limits: Limits, status: nat)
    requires IsPrintable(m) && |PrintedHead(m)| <= limits.maxHeaderBytes
    ensures var r := HttpOutcome(Printed(m), ending, limits);
      && (FieldFault(m, limits).Some? ==> (HasStatus(r, status) <==> FieldFault(m, limits) == Some(status)))
      && (FieldFault(m, limits).None? && |m.body| >= Declared(m) ==> IsReceived(r, m))
      && (FieldFault(m, limits).None? && |m.body| < Declared(m) ==>
            (HasStatus(r, status) <==> (status == 400 && EndsCleanly(ending)) || (status == 408 && ending == TimedOut)))
  {
    var stream := Printed(m);
    PrintedBlock(m, limits);
    PrintedHeadCases(m, limits, status);
    FailureCases(stream, ending, limits, status);
    if FieldFault(m, limits).None? && |m.body| >= Declared(m) {
      ReceivedAsSent(m, ending, limits);
    }
  }

  /** The request has the method, target and body of the message, and under each lower-case name the last
      value given for it. */
  ghost predicate IsReceived(r: Result<Incoming>, m: Message) {
    && r.Ok? && r.value.Received? && Declared(m) <= |m.body|
    && var request := r.value.request;
       && request.verb == m.verb && request.target == m.target && request.body == m.body[..Declared(m)]
       && HasFields(request.headers, m)
  }

  function LastOf(values: seq<bytes>): bytes
    requires values != []
  {
    values[|values| - 1]
  }

  /** The fields of the request are those of the message. */
  ghost predicate HasFields(headers: map<bytes, bytes>, m: Message) {
    forall name | IsLowerCase(name) :: HasField(headers, m, name)
  }

  predicate HasField(headers: map<bytes, bytes>, m: Message, name: bytes) {
    if Given(m.fields, name) == [] then name !in headers
    else name in headers && headers[name] == LastOf(Given(m.fields, name))
  }

  lemma FieldsAsSent(headers: map<bytes, bytes>, m: Message)
    requires IsPrintable(m) && LastWins(headers, FieldLines(m.fields))
    ensures HasFields(headers, m)
  {
    forall name | IsLowerCase(name) ensures HasField(headers, m, name) {
      assert LastWinsFor(headers, FieldLines(m.fields), name);
      FieldAsSent(headers, m, name);
    }
  }

  lemma FieldAsSent(headers: map<bytes, bytes>, m: Message, name: bytes)
    requires IsPrintable(m) && IsLowerCase(name) && LastWinsFor(headers, FieldLines(m.fields), name)
    ensures HasField(headers, m, name)
  {
    GivenIsRead(m.fields, name);
  }

  lemma HeadAsSent(m: Message, limits: Limits)
    requires IsPrintable(m) && |PrintedHead(m)| <= limits.maxHeaderBytes && FieldFault(m, limits).None?
    ensures var h := HeadOf(PrintedHead(m), limits);
      && h.Ok? && h.value.verb == m.verb && h.value.target == m.target && h.value.bodyLen == Declared(m)
      && HasFields(h.value.headers, m)
  {
    PrintedBlock(m, limits);
    PrintedHeadCases(m, limits, 400);
    BlockIsRead(Printed(m), Eof, limits);
    HeadAcceptedIff(PrintedHead(m), limits);
    FirstLineSplits(m);
    assert ([FirstLine(m)] + FieldLines(m.fields))[1..] == FieldLines(m.fields);
    FieldsAsSent(HeadOf(PrintedHead(m), limits).value.headers, m);
  }

  lemma ReceivedAsSent(m: Message, ending: Ending, limits: Limits)
    requires IsPrintable(m) && |PrintedHead(m)| <= limits.maxHeaderBytes
    requires FieldFault(m, limits).None? && |m.body| >= Declared(m)
    ensures IsReceived(HttpOutcome(Printed(m), ending, limits), m)
  {
    PrintedBlock(m, limits);
    BlockIsRead(Printed(m), ending, limits);
    HeadAsSent(m, limits);
    assert Printed(m)[|PrintedHead(m)|..] == m.body;
  }

  /** A message with one Host and the length of its body, and without the fields that are refused, comes
      back with its whole body. */
  lemma WellSentIsReceived(m: Message, ending: Ending, limits: Limits)
    requires IsPrintable(m) && |PrintedHead(m)| <= limits.maxHeaderBytes && |m.fields| <= limits.maxHeaderCount
    requires |Given(m.fields, Ascii("host"))| == 1
    requires Given(m.fields, Ascii("content-length")) == [Decimal(|m.body|)]
    requires Given(m.fields, Ascii("transfer-encoding")) == [] && Given(m.fields, Ascii("expect")) == []
    requires |m.body| <= limits.maxBodyBytes && |m.body| < U64
    ensures var r := HttpOutcome(Printed(m), ending, limits); IsReceived(r, m) && r.value.request.body == m.body
  {
    DecimalRoundTrip(|m.body|);
    PrintedIsReceivedOrRefused(m, ending, limits, 400);
  }

  // ------------------------------------------------------------------ request lines

  lemma SplitJoins(line: bytes)
    ensures var parts := Split(line, [SP]);
      && (|parts| == 1 ==> parts[0] == line && SP !in line)
      && (|parts| > 1 ==> SP !in parts[0] && exists rest :: IsRest(line, parts, rest))
  {
    var found := Find(line, [SP]);
    if found.Some? {
      var p := found.value;
      AtElement(line, [SP], p, 0);
      assert line == line[..p] + [SP] + line[p + 1..];
      NoSpaceBefore(line, p);
      assert IsRest(line, Split(line, [SP]), line[p + 1..]);
    } else {
      assert forall i | 0 <= i < |line| :: line[i] == SP ==> line[i..i + 1] == [SP] && IsAt(line, [SP], i);
    }
  }

  /** Behind the first part and a space comes the rest, which splits into the other parts. */
  ghost predicate IsRest(line: bytes, parts: seq<bytes>, rest: bytes) {
    parts != [] && line == parts[0] + [SP] + rest && Split(rest, [SP]) == parts[1..]
  }

  lemma NoSpaceBefore(line: bytes, p: nat)
    requires Find(line, [SP]) == Some(p) && p <= |line|
    ensures SP !in line[..p]
  {
    if SP in line[..p] {
      var q :| 0 <= q < p && line[..p][q] == SP;
      assert line[q..q + 1] == [SP];
      assert IsAt(line, [SP], q);
    }
  }

  /** The line is three parts with single spaces between them. */
  predicate IsJoined(line: bytes, a: bytes, b: bytes, c: bytes) {
    32 !in a && 32 !in b && 32 !in c && line == a + [32] + (b + [32] + c)
  }

  lemma ThreePartsIff(line: bytes, a: bytes, b: bytes, c: bytes)
    ensures Split(line, [SP]) == [a, b, c] <==> IsJoined(line, a, b, c)
  {
    if IsJoined(line, a, b, c) {
      ThreeParts(a, b, c);
    }
    if Split(line, [SP]) == [a, b, c] {
      SplitJoins(line);
      var rest :| IsRest(line, [a, b, c], rest);
      SplitJoins(rest);
      var last :| IsRest(rest, [b, c], last);
      SplitJoins(last);
    }
  }

  lemma ThreePartsAre(line: bytes)
    requires |Split(line, [SP])| == 3
    ensures var parts := Split(line, [SP]); IsJoined(line, parts[0], parts[1], parts[2])
  {
    var parts := Split(line, [SP]);
    assert parts == [parts[0], parts[1], parts[2]];
    ThreePartsIff(line, parts[0], parts[1], parts[2]);
  }

  /** The request lines that are accepted. */
  lemma RequestLineIff(line: bytes)
    ensures IsRequestLine(line) <==>
      exists verb, target :: IsVerb(verb) && IsTarget(target) && IsJoined(line, verb, target, Ascii("HTTP/1.1"))
  {
    if verb, target :| IsVerb(verb) && IsTarget(target) && IsJoined(line, verb, target, Ascii("HTTP/1.1")) {
      ThreePartsIff(line, verb, target, Ascii("HTTP/1.1"));
    }
    if IsRequestLine(line) {
      ThreePartsAre(line);
    }
  }

  /** The request lines that are refused for their version: three parts, the last one another HTTP version. */
  lemma OtherVersionIff(line: bytes)
    ensures HasOtherVersion(line) <==>
      exists a, b, version :: IsJoined(line, a, b, version) && IsOtherVersion(version)
  {
    VersionStart();
    if a, b, version :| IsJoined(line, a, b, version) && IsOtherVersion(version) {
      ThreePartsIff(line, a, b, version);
    }
    if HasOtherVersion(line) {
      ThreePartsAre(line);
    }
  }

  predicate IsOtherVersion(version: bytes) {
    version != Ascii("HTTP/1.1") && |version| >= 5 && version[..5] == Ascii("HTTP/")
  }

  lemma VersionStart()
    ensures forall version: bytes :: HTTP_SLASH <= version <==> |version| >= 5 && version[..5] == Ascii("HTTP/")
  {
  }
}
