/** What a connection of `src/https_serve.rs` sends, and which answers to HEAD requests have body
    bytes. */
module HttpAnswers {
  import opened Prelude
  import opened HttpText
  import opened HttpReader
  import opened HttpRequest
  import opened HttpAcceptance
  import opened HttpFailures
  import opened HttpResponse

  const GET: bytes := Ascii("GET")
  const CONTENT_TYPE: bytes := Ascii("Content-Type")
  const PLAIN_TEXT: bytes := Ascii("text/plain; charset=utf-8")

  /** The bytes of a failure text. The texts of the source are ASCII. */
  function TextBytes(s: string): (b: bytes)
    ensures |b| == |s|
  {
    seq(|s|, i requires 0 <= i < |s| => if s[i] < 128 as char then s[i] as byte else 63)
  }

  function TextResponse(status: nat, body: string): Response {
    Response(status, [(CONTENT_TYPE, PLAIN_TEXT)], TextBytes(body))
  }

  function FailureBytes(f: Failure): bytes { Encoded(if f.head then HEAD else GET, TextResponse(f.status, f.body)) }

  /** What is sent for a result of reading: nothing when the peer closed or reading broke. */
  function Answer(r: Result<Incoming>, handler: Request -> Response): Option<bytes> {
    match r
    case Ok(Closed) => None
    case Ok(Received(request)) => Some(Encoded(request.verb, handler(request)))
    case Err(Protocol(failure)) => Some(FailureBytes(failure))
    case Err(Io(_)) => None
  }

  /** `handle_plain_connection`. Its own branch for a timed-out I/O error is not reached, because the
      reader turns that kind into a failure. */
  method HandlePlainConnection(reader: ByteReader, limits: Limits, handler: Request -> Response)
    returns (out: Option<bytes>)
    requires reader.Valid()
    modifies reader`pos, reader`plan
    ensures out == Answer(HttpOutcome(old(reader.Rest()), reader.ending, limits), handler)
  {
    var r := ReadHttp11(reader, limits);
    match r {
      case Ok(Closed) => out := None;
      case Ok(Received(request)) =>
        var bytes := EncodeResponse(request.verb, handler(request));
        out := Some(bytes);
      case Err(Protocol(failure)) =>
        var bytes := EncodeResponse(if failure.head then HEAD else GET, TextResponse(failure.status, failure.body));
        out := Some(bytes);
      case Err(Io(_)) => out := None;
    }
  }

  /** What an answer holds after its first blank line. */
  function BodyPart(out: bytes): bytes {
    match Find(out, CRLFCRLF)
    case None => []
    case Some(p) => if p + 4 <= |out| then out[p + 4..] else []
  }

  lemma BodyPartOf(verb: bytes, response: Response)
    ensures BodyPart(Encoded(verb, response)) == SentBody(verb, response)
  {
    EncodedBlankLine(verb, response);
  }

  lemma GetIsNotHead()
    ensures !IsHead(GET) && IsHead(HEAD)
  {
    assert |Lower(GET)| == 3 && |Lower(HEAD)| == 4;
  }

  lemma FailureBody(f: Failure)
    requires f.body != ""
    ensures BodyPart(FailureBytes(f)) == [] <==> f.head
  {
    GetIsNotHead();
    BodyPartOf(if f.head then HEAD else GET, TextResponse(f.status, f.body));
  }

  // ------------------------------------------------------------------ HEAD requests

  /** The stream is the start of a HEAD request. */
  predicate AsksHead(stream: bytes) { HEAD + [SP] <= stream }

  lemma HeadBytes(s: bytes, p: nat, pattern: bytes)
    requires AsksHead(s) && pattern != [] && pattern[0] == CR && IsAt(s, pattern, p)
    ensures p >= 5
  {
    AtElement(s, pattern, p, 0);
    var start := HEAD + [SP];
    assert start[0] == 72 && start[1] == 69 && start[2] == 65 && start[3] == 68 && start[4] == 32;
    assert forall i | 0 <= i < 5 :: s[i] == start[i];
  }

  /** The first line of such a request starts with the method HEAD. */
  lemma HeadIsTheVerb(block: bytes)
    requires IsHeaderBlock(block) && AsksHead(block)
    ensures Split(LinesOf(block)[0], [SP])[0] == HEAD && |Split(LinesOf(block)[0], [SP])| >= 2
  {
    HeadBytes(block, |block| - 4, CRLFCRLF);
    var text := Text(block);
    var found := Find(text, CRLF);
    if found.Some? {
      HeadBytes(text, found.value, CRLF);
    }
    FirstPart(LinesOf(block)[0]);
  }

  lemma FirstPart(line: bytes)
    requires AsksHead(line)
    ensures Split(line, [SP])[0] == HEAD && |Split(line, [SP])| >= 2
  {
    var start := HEAD + [SP];
    assert start[4] == SP && forall i | 0 <= i < 4 :: start[i] == HEAD[i] && HEAD[i] >= 65;
    assert line[4..5] == [SP];
    forall q: nat | q < 4 ensures !IsAt(line, [SP], q) {
      assert line[q..q + 1] == [start[q]];
    }
    FindIs(line, [SP], 4);
    assert line[..4] == HEAD;
  }

  /** The answer to a HEAD request has no body bytes exactly when a complete request was received or
      its head is one whose failure is marked: the text is clean, the version is HTTP/1.1, and the
      head is wrong in some other way than by a malformed Content-Length alone. So the body bytes are
      sent when the block is missing or too large, after a NUL or bad UTF-8, for another version, for
      a malformed length, and when the request body comes short. */
  lemma HeadAnswerHasNoBodyIff(stream: bytes, ending: Ending, limits: Limits, handler: Request -> Response)
    requires AsksHead(stream)
    ensures var answer := Answer(HttpOutcome(stream, ending, limits), handler);
      answer.Some? ==>
        (BodyPart(answer.value) == [] <==>
          || IsCompleteRequest(stream, limits)
          || (Fits(stream, limits) && !IsAcceptable(BlockOf(stream, limits), limits)
              && MarksHead(BlockOf(stream, limits), limits)))
  {
    var r := HttpOutcome(stream, ending, limits);
    RequestReceivedIff(stream, ending, limits);
    if Fits(stream, limits) {
      var block := BlockOf(stream, limits);
      BlockIsRead(stream, ending, limits);
      HeadBytes(stream, Find(stream, CRLFCRLF).value, CRLFCRLF);
      HeadIsTheVerb(block);
      HeadBlockAnswer(block, stream[|block|..], ending, limits, handler);
    } else if r.Err? && r.error.Protocol? {
      FailureBody(r.error.failure);
    }
  }

  /** How reading ends after the head of a HEAD request. */
  lemma HeadBlockOutcome(block: bytes, rest: bytes, ending: Ending, limits: Limits)
    requires IsHeaderBlock(block) && Split(LinesOf(block)[0], [SP])[0] == HEAD
    ensures var r := RequestOutcome(block, rest, ending, limits);
      && (r.Ok? ==> r.value.Received? && r.value.request.verb == HEAD && IsAcceptable(block, limits))
      && (r.Err? && r.error.Protocol? ==>
            && r.error.failure.body != ""
            && (r.error.failure.head <==> !IsAcceptable(block, limits) && MarksHead(block, limits)))
  {
    HeadAcceptedIff(block, limits);
    HeadCases(block, limits, 400);
  }

  lemma ReceivedBody(request: Request, handler: Request -> Response)
    requires request.verb == HEAD
    ensures BodyPart(Answer(Ok(Received(request)), handler).value) == []
  {
    GetIsNotHead();
    BodyPartOf(HEAD, handler(request));
  }

  lemma HeadBlockAnswer(block: bytes, rest: bytes, ending: Ending, limits: Limits, handler: Request -> Response)
    requires IsHeaderBlock(block) && Split(LinesOf(block)[0], [SP])[0] == HEAD
    ensures var r := RequestOutcome(block, rest, ending, limits); var answer := Answer(r, handler);
      answer.Some? ==>
        (BodyPart(answer.value) == [] <==>
          r.Ok? || (!IsAcceptable(block, limits) && MarksHead(block, limits)))
  {
    var r := RequestOutcome(block, rest, ending, limits);
    HeadBlockOutcome(block, rest, ending, limits);
    if r.Ok? {
      ReceivedBody(r.value.request, handler);
    } else if r.error.Protocol? {
      FailureBody(r.error.failure);
    }
  }

  // ------------------------------------------------------------------ timeouts

  /** A kind of read error other than `TimedOut`; on Unix a socket read that runs into its timeout
      reports such a kind. */
  const WOULD_BLOCK: nat := 0

  /** A read that times out is answered exactly when it has the `TimedOut` kind. */
  lemma TimeoutIsAnsweredIff(stream: bytes, ending: Ending, limits: Limits, handler: Request -> Response)
    requires IsShort(stream, limits) && (ending.TimedOut? || ending == OtherIo(WOULD_BLOCK))
    ensures var r := HttpOutcome(stream, ending, limits);
      && (HasStatus(r, 408) <==> ending.TimedOut?)
      && (Answer(r, handler).Some? <==> ending.TimedOut?)
  {
    FailureCases(stream, ending, limits, 408);
  }

  lemma SilentTimeout(limits: Limits, handler: Request -> Response)
    ensures Answer(HttpOutcome([], OtherIo(WOULD_BLOCK), limits), handler) == None
  {
    FailureCases([], OtherIo(WOULD_BLOCK), limits, 408);
    assert Find([], CRLFCRLF).None?;
  }

  // ------------------------------------------------------------------ concrete requests

  const HEAD_LINE: bytes := Ascii("HEAD / HTTP/1.1")
  const HOST_NAME: bytes := Ascii("Host")
  const SOME_HOST: bytes := Ascii("a")

  function HeadRequestLines(length: bytes): seq<bytes> {
    [HEAD_LINE, FieldLine(HOST_NAME, SOME_HOST), FieldLine(LENGTH_NAME, length)]
  }

  /** HEAD / HTTP/1.1, with Host and this Content-Length. */
  function HeadRequest(length: bytes): bytes { Lines(HeadRequestLines(length)) + CRLF }

  lemma {:induction false} AsciiIsUtf8(s: bytes)
    requires forall i | 0 <= i < |s| :: s[i] < 128
    ensures IsUtf8(s)
    decreases |s|
  {
    if s != [] {
      AsciiIsUtf8(s[1..]);
    }
  }

  lemma HeadLineBytes()
    ensures HEAD_LINE == HEAD + [SP] + ([47] + [SP] + HTTP11)
    ensures SP !in HEAD && SP !in HTTP11 && IsUppercaseMethod(HEAD)
    ensures forall i | 0 <= i < |HEAD_LINE| :: 32 <= HEAD_LINE[i] < 128
  {
    assert HEAD[0] == 72 && HEAD[1] == 69 && HEAD[2] == 65 && HEAD[3] == 68;
    assert forall i | 0 <= i < |HTTP11| :: HTTP11[i] > 32;
  }

  lemma HeadLineIsRequestLine()
    ensures IsRequestLine(HEAD_LINE) && Split(HEAD_LINE, [SP])[0] == HEAD && Split(HEAD_LINE, [SP])[2] == HTTP11
    ensures |Split(HEAD_LINE, [SP])| == 3
  {
    HeadLineBytes();
    SplitAt(HEAD, [47] + [SP] + HTTP11);
    SplitAt([47], HTTP11);
    SplitNone(HTTP11);
  }

  lemma SplitAt(part: bytes, rest: bytes)
    requires SP !in part
    ensures Split(part + [SP] + rest, [SP]) == [part] + Split(rest, [SP])
  {
    var s := part + [SP] + rest;
    assert s[|part|..|part| + 1] == [SP];
    forall q: nat | q < |part| ensures !IsAt(s, [SP], q) {
      assert s[q..q + 1] == [part[q]];
    }
    FindIs(s, [SP], |part|);
    assert s[..|part|] == part && s[|part| + 1..] == rest;
  }

  lemma SplitNone(part: bytes)
    requires SP !in part
    ensures Split(part, [SP]) == [part]
  {
    var found := Find(part, [SP]);
    if found.Some? {
      AtElement(part, [SP], found.value, 0);
    }
  }

  lemma HeadFields(length: bytes)
    requires HeaderIsSafe(LENGTH_NAME, length)
    ensures var fields := HeadRequestLines(length)[1..];
      && FieldsOk(fields, 2)
      && |Values(fields, HOST)| == 1 && Values(fields, CONTENT_LENGTH) == [Trim([SP] + length)]
      && Values(fields, TRANSFER_ENCODING) == [] && Values(fields, EXPECT) == []
  {
    var host, line := FieldLine(HOST_NAME, SOME_HOST), FieldLine(LENGTH_NAME, length);
    assert HeadRequestLines(length)[1..] == [host] + [line];
    HostFieldLine();
    LengthFieldLine(length);
    NamesDiffer();
    TwoFields(host, line, HOST);
    TwoFields(host, line, CONTENT_LENGTH);
    TwoFields(host, line, TRANSFER_ENCODING);
    TwoFields(host, line, EXPECT);
  }

  lemma HostFieldLine()
    ensures var host := FieldLine(HOST_NAME, SOME_HOST);
      && IsLine(host) && IsFieldLine(host) && NameOf(host) == HOST
      && forall i | 0 <= i < |host| :: host[i] < 128
  {
    assert HOST_NAME[0] == 72 && HOST_NAME[1] == 111 && HOST_NAME[2] == 115 && HOST_NAME[3] == 116;
    assert HOST[0] == 104 && HOST[1] == 111 && HOST[2] == 115 && HOST[3] == 116;
    assert Lower(HOST_NAME) == HOST;
    assert SOME_HOST[0] == 97;
    FieldLineFacts(HOST_NAME, SOME_HOST);
  }

  lemma LengthFieldLine(length: bytes)
    requires HeaderIsSafe(LENGTH_NAME, length)
    ensures var line := FieldLine(LENGTH_NAME, length);
      && IsLine(line) && IsFieldLine(line) && NameOf(line) == CONTENT_LENGTH && ValueOf(line) == Trim([SP] + length)
  {
    OwnFieldsAreSafe(0);
    FieldLineFacts(LENGTH_NAME, length);
  }

  lemma TwoFields(a: bytes, b: bytes, name: bytes)
    requires IsFieldLine(a) && IsFieldLine(b)
    ensures Values([a] + [b], name) ==
      (if NameOf(a) == name then [ValueOf(a)] else []) + (if NameOf(b) == name then [ValueOf(b)] else [])
  {
    assert [] + [a] == [a];
    ValuesAppend([], a, name);
    ValuesAppend([a], b, name);
  }

  predicate IsAscii(s: bytes) { forall i | 0 <= i < |s| :: 0 < s[i] < 128 }

  lemma {:induction false} LinesAscii(lines: seq<bytes>)
    requires forall l | l in lines :: IsAscii(l)
    ensures IsAscii(Lines(lines))
  {
    if lines != [] {
      assert lines[0] in lines;
      LinesAscii(lines[1..]);
    }
  }

  /** A head of ASCII lines is a clean block. */
  lemma AsciiBlock(lines: seq<bytes>, limits: Limits)
    requires AllLines(lines) && lines != [] && forall l | l in lines :: IsAscii(l)
    requires |Lines(lines) + CRLF| <= limits.maxHeaderBytes
    ensures var stream := Lines(lines) + CRLF;
      Fits(stream, limits) && BlockOf(stream, limits) == stream && LinesOf(stream) == lines && IsClean(stream)
  {
    var stream := Lines(lines) + CRLF;
    LinesOfLines(lines);
    LinesAscii(lines);
    AsciiIsUtf8(Text(stream));
    FirstBlankLine(lines, []);
    assert stream + [] == stream;
  }

  lemma HeadRequestIsAscii(length: bytes)
    requires IsAscii(length)
    ensures forall l | l in HeadRequestLines(length) :: IsAscii(l)
  {
    HeadLineBytes();
    HostFieldLine();
    assert IsAscii(LENGTH_NAME) && IsAscii(FieldLine(LENGTH_NAME, length));
  }

  lemma HeadRequestAsksHead(length: bytes)
    ensures AsksHead(HeadRequest(length))
  {
    HeadLineBytes();
    var lines := HeadRequestLines(length);
    var stream, rest := HeadRequest(length), CRLF + Lines(lines[1..]) + CRLF;
    assert stream == HEAD_LINE + rest;
    assert HEAD_LINE[..5] == HEAD + [SP] && stream[..5] == HEAD_LINE[..5];
  }

  lemma HeadRequestLinesAreLines(length: bytes)
    requires HeaderIsSafe(LENGTH_NAME, length)
    ensures AllLines(HeadRequestLines(length))
  {
    HeadLineBytes();
    HostFieldLine();
    LengthFieldLine(length);
  }

  /** The block of the concrete request, whatever its Content-Length says. */
  lemma HeadRequestBlock(length: bytes, limits: Limits)
    requires HeaderIsSafe(LENGTH_NAME, length) && IsAscii(length)
    requires |HeadRequest(length)| <= limits.maxHeaderBytes
    ensures var stream := HeadRequest(length);
      && Fits(stream, limits) && BlockOf(stream, limits) == stream
      && LinesOf(stream) == HeadRequestLines(length) && IsClean(stream)
  {
    HeadRequestLinesAreLines(length);
    HeadRequestIsAscii(length);
    AsciiBlock(HeadRequestLines(length), limits);
  }

  /** What the parser makes of the concrete request. */
  lemma HeadRequestHead(length: bytes, limits: Limits)
    requires HeaderIsSafe(LENGTH_NAME, length) && IsAscii(length)
    requires |HeadRequest(length)| <= limits.maxHeaderBytes && limits.maxHeaderCount >= 2
    ensures |HeadRequest(length)| >= 4
    ensures var stream, value := HeadRequest(length), Trim([SP] + length);
      && (!IsU64(value) ==>
            HeadFails(stream, limits, 400) && !MarksHead(stream, limits) && !IsAcceptable(stream, limits))
      && (IsU64(value) && DecimalValue(value) <= limits.maxBodyBytes ==>
            IsAcceptable(stream, limits) && DeclaredLength(LinesOf(stream)[1..]) == DecimalValue(value))
  {
    HeadRequestBlock(length, limits);
    HeadLineIsRequestLine();
    HeadFields(length);
    OneLengthHead(HeadRequest(length), limits, Trim([SP] + length));
  }

  /** A block that is fine up to the value of its one Content-Length. */
  lemma OneLengthHead(block: bytes, limits: Limits, value: bytes)
    requires |block| >= 4 && IsClean(block) && IsRequestLine(LinesOf(block)[0])
    requires FieldsOk(LinesOf(block)[1..], limits.maxHeaderCount)
    requires var fields := LinesOf(block)[1..];
      && |Values(fields, HOST)| == 1 && Values(fields, CONTENT_LENGTH) == [value]
      && Values(fields, TRANSFER_ENCODING) == [] && Values(fields, EXPECT) == []
    ensures !IsU64(value) ==>
      HeadFails(block, limits, 400) && !MarksHead(block, limits) && !IsAcceptable(block, limits)
    ensures IsU64(value) && DecimalValue(value) <= limits.maxBodyBytes ==>
      IsAcceptable(block, limits) && DeclaredLength(LinesOf(block)[1..]) == DecimalValue(value)
  {
  }

  /** The answer to the concrete request has a body when its Content-Length cannot be read, and when
      it declares a body that is not sent. */
  lemma HeadRequestAnswer(length: bytes, ending: Ending, limits: Limits, handler: Request -> Response)
    requires HeaderIsSafe(LENGTH_NAME, length) && IsAscii(length)
    requires |HeadRequest(length)| <= limits.maxHeaderBytes && limits.maxHeaderCount >= 2
    requires var value := Trim([SP] + length);
      !IsU64(value) || (0 < DecimalValue(value) <= limits.maxBodyBytes && EndsCleanly(ending))
    ensures var answer := Answer(HttpOutcome(HeadRequest(length), ending, limits), handler);
      answer.Some? && BodyPart(answer.value) != []
  {
    var stream := HeadRequest(length);
    HeadRequestBlock(length, limits);
    HeadRequestHead(length, limits);
    HeadRequestAsksHead(length);
    FailureCases(stream, ending, limits, 400);
    HeadAnswerHasNoBodyIff(stream, ending, limits, handler);
  }

  /** Two requests whose answers have a body against the promise for HEAD: one with `Content-Length: x`,
      however its stream ends, and one that declares a body byte it does not send. */
  lemma HeadAnswersWithBody(ending: Ending, limits: Limits, handler: Request -> Response)
    requires |HeadRequest([120])| <= limits.maxHeaderBytes && |HeadRequest([49])| <= limits.maxHeaderBytes
    requires limits.maxHeaderCount >= 2 && limits.maxBodyBytes >= 1
    ensures var answer := Answer(HttpOutcome(HeadRequest([120]), ending, limits), handler);
      answer.Some? && BodyPart(answer.value) != []
    ensures var answer := Answer(HttpOutcome(HeadRequest([49]), Eof, limits), handler);
      answer.Some? && BodyPart(answer.value) != []
  {
    LengthTexts();
    HeadRequestAnswer([120], ending, limits, handler);
    HeadRequestAnswer([49], Eof, limits, handler);
  }

  lemma LengthTexts()
    ensures HeaderIsSafe(LENGTH_NAME, [120]) && HeaderIsSafe(LENGTH_NAME, [49])
    ensures !IsU64(Trim([SP] + [120])) && IsU64(Trim([SP] + [49])) && DecimalValue(Trim([SP] + [49])) == 1
  {
    OwnFieldsAreSafe(1);
    TrimKeeps([120]);
    TrimKeeps([49]);
    assert DecimalValue([49]) == 10 * DecimalValue([49][..0]) + 1;
  }

  // ------------------------------------------------------------------ no length at all

  function BareLines(): seq<bytes> { [HEAD_LINE, FieldLine(HOST_NAME, SOME_HOST)] }

  /** HEAD / HTTP/1.1, with Host and no other field. */
  function BareRequest(): bytes { Lines(BareLines()) + CRLF }

  lemma BareRequestBlock(limits: Limits)
    requires |BareRequest()| <= limits.maxHeaderBytes
    ensures var stream := BareRequest();
      && Fits(stream, limits) && BlockOf(stream, limits) == stream
      && LinesOf(stream) == BareLines() && IsClean(stream)
  {
    HeadLineBytes();
    HostFieldLine();
    AsciiBlock(BareLines(), limits);
  }

  lemma BareFields()
    ensures var fields := BareLines()[1..];
      && FieldsOk(fields, 1) && |Values(fields, HOST)| == 1 && Values(fields, CONTENT_LENGTH) == []
      && Values(fields, TRANSFER_ENCODING) == [] && Values(fields, EXPECT) == []
  {
    var host := FieldLine(HOST_NAME, SOME_HOST);
    assert BareLines()[1..] == [] + [host];
    HostFieldLine();
    NamesDiffer();
    ValuesAppend([], host, HOST);
    ValuesAppend([], host, CONTENT_LENGTH);
    ValuesAppend([], host, TRANSFER_ENCODING);
    ValuesAppend([], host, EXPECT);
  }

  /** A stream whose head fits and has no Content-Length is accepted exactly when everything else about
      the head is fine, and then the body is empty, whatever follows. */
  lemma MissingLengthAcceptedIff(stream: bytes, ending: Ending, limits: Limits)
    requires Fits(stream, limits) && Values(LinesOf(BlockOf(stream, limits))[1..], CONTENT_LENGTH) == []
    ensures var r := HttpOutcome(stream, ending, limits);
      var block := BlockOf(stream, limits);
      var fields := LinesOf(block)[1..];
      && (r.Ok? <==>
            && IsClean(block) && IsRequestLine(LinesOf(block)[0]) && FieldsOk(fields, limits.maxHeaderCount)
            && |Values(fields, HOST)| == 1
            && Values(fields, TRANSFER_ENCODING) == [] && Values(fields, EXPECT) == [])
      && (r.Ok? ==> r.value.Received? && r.value.request.body == [])
  {
    BlockIsRead(stream, ending, limits);
    HeadAcceptedIff(BlockOf(stream, limits), limits);
  }

  /** For one: a concrete request with no field but Host. */
  lemma MissingLengthIsAccepted(ending: Ending, limits: Limits)
    requires |BareRequest()| <= limits.maxHeaderBytes && limits.maxHeaderCount >= 1
    ensures var r := HttpOutcome(BareRequest(), ending, limits);
      r.Ok? && r.value.Received? && r.value.request.body == []
  {
    BareRequestBlock(limits);
    BareFields();
    HeadLineIsRequestLine();
    NoLengthIsAcceptable(BareRequest(), limits);
    RequestReceivedIff(BareRequest(), ending, limits);
  }

  lemma NoLengthIsAcceptable(block: bytes, limits: Limits)
    requires |block| >= 4 && IsClean(block) && IsRequestLine(LinesOf(block)[0])
    requires FieldsOk(LinesOf(block)[1..], limits.maxHeaderCount)
    requires var fields := LinesOf(block)[1..];
      && |Values(fields, HOST)| == 1 && Values(fields, CONTENT_LENGTH) == []
      && Values(fields, TRANSFER_ENCODING) == [] && Values(fields, EXPECT) == []
    ensures IsAcceptable(block, limits) && DeclaredLength(LinesOf(block)[1..]) == 0
  {
  }
}
