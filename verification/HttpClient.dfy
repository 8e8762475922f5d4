/** What a client reads in an answer of `src/https_serve.rs`: the status line, the fields as they
    stand on their lines, and which status answers which stream. */
module HttpClient {
  import opened Prelude
  import opened HttpText
  import opened HttpReader
  import opened HttpRequest
  import opened HttpAcceptance
  import opened HttpFailures
  import opened HttpResponse
  import opened HttpAnswers

  // ------------------------------------------------------------------ the status line

  datatype StatusView = StatusView(version: bytes, number: nat, phrase: bytes)

  /** The first line of an answer, split at its first two spaces. */
  function ReadStatus(out: bytes): Option<StatusView> {
    match Find(out, CRLF)
    case None => None
    case Some(p) =>
      if p > |out| then None else ReadStatusLine(out[..p])
  }

  function ReadStatusLine(line: bytes): Option<StatusView> {
    match SplitOnce(line, SP)
    case None => None
    case Some((version, rest)) =>
      match SplitOnce(rest, SP)
      case None => None
      case Some((digits, phrase)) =>
        if digits == [] || !AllDigits(digits) then None else Some(StatusView(version, DecimalValue(digits), phrase))
  }

  /** The phrases of the statuses, and the one for every other number. */
  lemma ReasonPhrases(status: nat)
    ensures Reason(200) == "OK" && Reason(201) == "Created" && Reason(204) == "No Content"
    ensures Reason(400) == "Bad Request" && Reason(404) == "Not Found" && Reason(408) == "Request Timeout"
    ensures Reason(413) == "Payload Too Large" && Reason(417) == "Expectation Failed"
    ensures Reason(431) == "Request Header Fields Too Large" && Reason(500) == "Internal Server Error"
    ensures Reason(501) == "Not Implemented" && Reason(505) == "HTTP Version Not Supported"
    ensures status !in {200, 201, 204, 400, 404, 408, 413, 417, 431, 500, 501, 505} ==> Reason(status) == "Status"
  {
  }

  /** Every answer starts with HTTP/1.1, the status of the response, or 500 if that is no three-digit
      number from 100 to 599, and the phrase of that number. */
  lemma StatusIsReadBack(verb: bytes, response: Response)
    ensures var number := if 100 <= response.status <= 599 then response.status else 500;
      && IsPhrase(Reason(number))
      && ReadStatus(Encoded(verb, response)) == Some(StatusView(Ascii("HTTP/1.1"), number, Ascii(Reason(number))))
  {
    var number := SentStatus(response.status);
    ReasonIsPhrase(number);
    var lines := HeadLines(response);
    StatusLineIsLine(response.status);
    var rest := Lines(lines[1..]) + CRLF + SentBody(verb, response);
    assert Encoded(verb, response) == StatusLine(response.status) + CRLF + rest;
    FirstCrlf(StatusLine(response.status), rest);
    assert Encoded(verb, response)[..|StatusLine(response.status)|] == StatusLine(response.status);
    StatusLineIsReadBack(number, Ascii(Reason(number)));
  }

  lemma StatusLineIsReadBack(number: nat, phrase: bytes)
    ensures ReadStatusLine(STATUS_START + Decimal(number) + [SP] + phrase)
         == Some(StatusView(Ascii("HTTP/1.1"), number, phrase))
  {
    var version, digits := Ascii("HTTP/1.1"), Decimal(number);
    assert STATUS_START == version + [SP];
    assert STATUS_START + digits + [SP] + phrase == version + [SP] + (digits + [SP] + phrase);
    VersionHasNoSpace();
    SplitOnceAt(version, SP, digits + [SP] + phrase);
    SplitOnceAt(digits, SP, phrase);
    DecimalRoundTrip(number);
  }

  lemma VersionHasNoSpace()
    ensures SP !in Ascii("HTTP/1.1") && STATUS_START == Ascii("HTTP/1.1") + [SP]
  {
    var version := Ascii("HTTP/1.1");
    assert forall i | 0 <= i < |version| :: version[i] > 32;
  }

  // ------------------------------------------------------------------ the status of each stream

  /** The number in the status line of the answer. */
  function StatusOf(answer: Option<bytes>): Option<nat> {
    match answer
    case None => None
    case Some(out) => match ReadStatus(out) case None => None case Some(view) => Some(view.number)
  }

  /** What a client sees of every stream: a complete request is answered with the status of the
      handler's response, and any other stream with status s exactly when it fails with s. */
  lemma AnswerStatus(stream: bytes, ending: Ending, limits: Limits, handler: Request -> Response, status: nat)
    ensures var r := HttpOutcome(stream, ending, limits); var answer := Answer(r, handler);
      if IsCompleteRequest(stream, limits) then
        && r.Ok? && r.value.Received?
        && var chosen := handler(r.value.request).status;
           StatusOf(answer) == Some(if 100 <= chosen <= 599 then chosen else 500)
      else StatusOf(answer) == Some(status) <==> StreamFails(stream, ending, limits, status)
  {
    RequestReceivedIff(stream, ending, limits);
    var r := HttpOutcome(stream, ending, limits);
    if r.Ok? && r.value.Received? {
      StatusIsReadBack(r.value.request.verb, handler(r.value.request));
    } else {
      FailureCases(stream, ending, limits, status);
      FailureStatus(stream, ending, limits, handler);
    }
  }

  lemma FailureStatus(stream: bytes, ending: Ending, limits: Limits, handler: Request -> Response)
    ensures var r := HttpOutcome(stream, ending, limits); var answer := Answer(r, handler);
      && (r.Err? && r.error.Protocol? ==> StatusOf(answer) == Some(r.error.failure.status))
      && (r.Err? && r.error.Io? ==> StatusOf(answer) == None)
      && (r == Ok(Closed) ==> StatusOf(answer) == None)
  {
    OnlySevenStatuses(stream, ending, limits);
    var r := HttpOutcome(stream, ending, limits);
    if r.Err? && r.error.Protocol? {
      var f := r.error.failure;
      StatusIsReadBack(if f.head then HEAD else GET, TextResponse(f.status, f.body));
    }
  }

  // ------------------------------------------------------------------ the fields

  /** A field the handler set that is sent: a token, a value without CR, LF and NUL, and none of the
      three names the server keeps for itself, in whatever case. */
  predicate MayBeSent(name: bytes, value: bytes) {
    && name != [] && (forall i | 0 <= i < |name| :: IsNameByte(name[i]))
    && 13 !in value && 10 !in value && 0 !in value
    && !EqualIgnoringCase(name, Ascii("content-length"))
    && !EqualIgnoringCase(name, Ascii("connection"))
    && !EqualIgnoringCase(name, Ascii("transfer-encoding"))
  }

  /** RFC 9110, section 5.6.2: letters, digits and fifteen signs. */
  predicate IsNameByte(b: byte) {
    || '0' as int <= b <= '9' as int || 'A' as int <= b <= 'Z' as int || 'a' as int <= b <= 'z' as int
    || b as char in {'!', '#', '$', '%', '&', '\'', '*', '+', '-', '.', '^', '_', '`', '|', '~'}
  }

  lemma SentIff(name: bytes, value: bytes)
    ensures IsSent(name, value) <==> MayBeSent(name, value)
  {
    assert forall b: byte :: IsTokenByte(b) <==> IsNameByte(b);
    ServerNamesAreLower();
    LowerIgnoresCase(name, CONTENT_LENGTH);
    LowerIgnoresCase(name, CONNECTION);
    LowerIgnoresCase(name, TRANSFER_ENCODING);
  }

  lemma ServerNamesAreLower()
    ensures forall i | 0 <= i < |CONTENT_LENGTH| :: !(65 <= CONTENT_LENGTH[i] <= 90)
    ensures forall i | 0 <= i < |CONNECTION| :: !(65 <= CONNECTION[i] <= 90)
    ensures forall i | 0 <= i < |TRANSFER_ENCODING| :: !(65 <= TRANSFER_ENCODING[i] <= 90)
    ensures CONTENT_LENGTH == Ascii("content-length") && CONNECTION == Ascii("connection")
    ensures TRANSFER_ENCODING == Ascii("transfer-encoding")
  {
  }

  /** The fields that are sent, by number, in order. */
  ghost predicate ArePicks(headers: seq<(bytes, bytes)>, picks: seq<nat>) {
    && (forall i | 0 <= i < |picks| :: picks[i] < |headers|)
    && (forall i, j | 0 <= i < j < |picks| :: picks[i] < picks[j])
    && (forall k: nat | k < |headers| :: k in picks <==> IsSent(headers[k].0, headers[k].1))
  }

  lemma OneMorePick(headers: seq<(bytes, bytes)>, picks: seq<nat>)
    requires headers != [] && ArePicks(headers[..|headers| - 1], picks)
    ensures var n := |headers| - 1;
      ArePicks(headers, if IsSent(headers[n].0, headers[n].1) then picks + [n] else picks)
  {
    var n := |headers| - 1;
    var more := if IsSent(headers[n].0, headers[n].1) then picks + [n] else picks;
    forall k: nat | k < |headers| ensures k in more <==> IsSent(headers[k].0, headers[k].1) {
      if k < n { assert headers[..n][k] == headers[k]; }
    }
  }

  function LineFor(field: (bytes, bytes)): bytes { FieldLine(field.0, field.1) }

  lemma OneMoreSent(headers: seq<(bytes, bytes)>)
    requires headers != []
    ensures var n := |headers| - 1;
      SentLines(headers) ==
        if IsSent(headers[n].0, headers[n].1) then SentLines(headers[..n]) + [LineFor(headers[n])]
        else SentLines(headers[..n])
  {
  }

  /** The lines are those of the picked fields. */
  ghost predicate LinesAre(lines: seq<bytes>, headers: seq<(bytes, bytes)>, picks: seq<nat>) {
    && |lines| == |picks|
    && forall i | 0 <= i < |picks| :: picks[i] < |headers| && lines[i] == LineFor(headers[picks[i]])
  }

  lemma OneMoreLineIs(lines: seq<bytes>, headers: seq<(bytes, bytes)>, picks: seq<nat>)
    requires headers != [] && LinesAre(lines, headers[..|headers| - 1], picks)
    ensures LinesAre(lines, headers, picks)
    ensures LinesAre(lines + [LineFor(headers[|headers| - 1])], headers, picks + [|headers| - 1])
  {
    assert forall k: nat | k < |headers| - 1 :: headers[..|headers| - 1][k] == headers[k];
  }

  lemma {:induction false} SentLinesArePicked(headers: seq<(bytes, bytes)>) returns (picks: seq<nat>)
    ensures ArePicks(headers, picks) && LinesAre(SentLines(headers), headers, picks)
    decreases |headers|
  {
    if headers == [] {
      picks := [];
    } else {
      var n := |headers| - 1;
      picks := SentLinesArePicked(headers[..n]);
      OneMorePick(headers, picks);
      OneMoreSent(headers);
      OneMoreLineIs(SentLines(headers[..n]), headers, picks);
      if IsSent(headers[n].0, headers[n].1) {
        picks := picks + [n];
      }
    }
  }

  /** The lines are the picked fields as they were set, and they are picked in order. */
  ghost predicate ShowsFields(lines: seq<bytes>, headers: seq<(bytes, bytes)>, picks: seq<nat>) {
    && |lines| == |picks|
    && (forall i, j | 0 <= i < j < |picks| :: picks[i] < picks[j])
    && (forall i | 0 <= i < |picks| :: picks[i] < |headers| && lines[i] == PlainLine(headers[picks[i]]))
  }

  function PlainLine(field: (bytes, bytes)): bytes { field.0 + Ascii(": ") + field.1 }

  /** The head, line by line: after the status line come the fields of the handler that may be sent, in
      order and each as it was set, then the length of the body and `Connection: close`. */
  lemma SentFieldsAreTheHandlers(response: Response) returns (picks: seq<nat>)
    ensures |EncodedHead(response)| >= 4
    ensures var lines := LinesOf(EncodedHead(response));
      && |lines| >= 3
      && ShowsFields(lines[1..|lines| - 2], response.headers, picks)
      && lines[|lines| - 2] == PlainLine((LENGTH_NAME, Decimal(|response.body|)))
      && lines[|lines| - 1] == PlainLine((CONNECTION_NAME, CLOSE))
    ensures forall k: nat | k < |response.headers| ::
      k in picks <==> MayBeSent(response.headers[k].0, response.headers[k].1)
  {
    HeadIsTheLines(response);
    picks := SentLinesArePicked(response.headers);
    var lines, sent := HeadLines(response), SentLines(response.headers);
    forall k: nat | k < |response.headers|
      ensures k in picks <==> MayBeSent(response.headers[k].0, response.headers[k].1) {
      SentIff(response.headers[k].0, response.headers[k].1);
    }
    assert lines[1..|lines| - 2] == sent;
    forall i | 0 <= i < |picks| ensures sent[i] == PlainLine(response.headers[picks[i]]) {
      FieldLineIs(response.headers[picks[i]].0, response.headers[picks[i]].1);
    }
    FieldLineIs(LENGTH_NAME, Decimal(|response.body|));
    FieldLineIs(CONNECTION_NAME, CLOSE);
  }

  lemma FieldLineIs(name: bytes, value: bytes)
    ensures FieldLine(name, value) == PlainLine((name, value)) == name + Ascii(": ") + value
  {
    assert Ascii(": ") == [COLON] + [SP];
  }

  /** The texts of the fields that the server sets itself. */
  lemma ServerTexts()
    ensures LENGTH_NAME == Ascii("Content-Length")
    ensures CONNECTION_NAME == Ascii("Connection") && CLOSE == Ascii("close")
    ensures CONTENT_TYPE == Ascii("Content-Type") && PLAIN_TEXT == Ascii("text/plain; charset=utf-8")
  {
  }

  /** The answers without a body are those to the method HEAD, in whatever case. */
  lemma BodyIsSentIff(verb: bytes, response: Response)
    ensures BodyPart(Encoded(verb, response)) ==
      if EqualIgnoringCase(verb, Ascii("head")) then [] else response.body
  {
    var lower := Ascii("head");
    assert lower[0] == 104 && lower[1] == 101 && lower[2] == 97 && lower[3] == 100;
    assert HEAD[0] == 72 && HEAD[1] == 69 && HEAD[2] == 65 && HEAD[3] == 68;
    assert Lower(HEAD) == lower;
    LowerIgnoresCase(verb, lower);
    BodyPartOf(verb, response);
  }

  // ------------------------------------------------------------------ the texts of failures

  /** The text that goes with a failure status of a head. */
  ghost function HeadText(block: bytes, limits: Limits, status: nat): string
    requires |block| >= 4
  {
    var line, fields := LinesOf(block)[0], LinesOf(block)[1..];
    match status
    case 413 => FramingText(fields, 413)
    case 417 => FramingText(fields, 417)
    case 431 => "request headers too large"
    case 501 => FramingText(fields, 501)
    case 505 => "HTTP/1.1 required"
    case _ =>
      if IsClean(block) && HasWrongTarget(line) then "origin-form target required"
      else if !IsClean(block) || !IsRequestLine(line) || !FieldsOk(fields, limits.maxHeaderCount) then "bad request"
      else FramingText(fields, status)
  }

  /** The text for well-formed fields. */
  function FramingText(fields: seq<bytes>, status: nat): string {
    match status
    case 413 => "request body too large"
    case 417 => "expectation failed"
    case 501 => "transfer-encoding is not supported"
    case _ =>
      if |Values(fields, HOST)| == 0 then "host header required"
      else if |Values(fields, HOST)| > 1 then "invalid host header"
      else "invalid content-length"
  }

  /** The method and the version are fine, but the target is not a path. */
  predicate HasWrongTarget(line: bytes) {
    var parts := Split(line, [SP]);
    |parts| == 3 && parts[2] == HTTP11 && IsUppercaseMethod(parts[0]) && !IsRequestLine(line)
  }

  /** The text that goes with a failure status of a stream. */
  ghost function StreamText(stream: bytes, limits: Limits, status: nat): string {
    if status == 408 then "request timeout"
    else if Fits(stream, limits) then
      var block := BlockOf(stream, limits);
      if status == 400 && IsAcceptable(block, limits) then "incomplete request body"
      else HeadText(block, limits, status)
    else if status == 431 then "request headers too large"
    else "bad request"
  }

  predicate HasText<T>(r: Result<T>, status: nat, text: string) {
    HasStatus(r, status) ==> r.error.failure.body == text
  }

  lemma {:induction false} FieldsText(fields: seq<bytes>, max: nat, head: bool)
    ensures HasText(AddFields(fields, max, head), 400, "bad request")
    ensures HasText(AddFields(fields, max, head), 431, "request headers too large")
  {
    if fields != [] {
      FieldsText(fields[..|fields| - 1], max, head);
    }
  }

  lemma HeadHasText(block: bytes, limits: Limits, status: nat)
    requires IsHeaderBlock(block)
    ensures HasText(HeadOf(block, limits), status, HeadText(block, limits, status))
  {
    var line := LinesOf(block)[0];
    LineCases(line, status);
    if IsClean(block) && IsRequestLine(line) {
      FieldsHaveText(block, limits, status);
    }
  }

  lemma FieldsHaveText(block: bytes, limits: Limits, status: nat)
    requires IsHeaderBlock(block) && IsClean(block) && IsRequestLine(LinesOf(block)[0])
    ensures HasText(HeadOf(block, limits), status, HeadText(block, limits, status))
  {
    NoEmptyFieldLines(block);
    var line, fields := LinesOf(block)[0], LinesOf(block)[1..];
    var head := RequestLine(line).value.0 == HEAD;
    var r := AddFields(fields, limits.maxHeaderCount, head);
    FieldsAccept(fields, limits.maxHeaderCount, head);
    if r.Err? {
      FieldsCases(fields, limits.maxHeaderCount, head);
      FieldsText(fields, limits.maxHeaderCount, head);
    } else {
      FramingHasText(r.value, fields, limits.maxBodyBytes, head, status);
    }
  }

  lemma FramingHasText(f: Fields, fields: seq<bytes>, maxBodyBytes: nat, head: bool, status: nat)
    requires CountsAre(f, fields)
    ensures HasText(BodyLength(f, maxBodyBytes, head), status, FramingText(fields, status))
    ensures HasStatus(BodyLength(f, maxBodyBytes, head), status) ==> status in {400, 413, 417, 501}
  {
  }

  /** Every failure carries the text that documents its cause. */
  lemma FailureTexts(stream: bytes, ending: Ending, limits: Limits, status: nat)
    ensures HasText(HttpOutcome(stream, ending, limits), status, StreamText(stream, limits, status))
  {
    if Fits(stream, limits) {
      var block := BlockOf(stream, limits);
      BlockIsRead(stream, ending, limits);
      BlockHasText(block, stream[|block|..], ending, limits, status);
    }
  }

  lemma BlockHasText(block: bytes, rest: bytes, ending: Ending, limits: Limits, status: nat)
    requires IsHeaderBlock(block)
    ensures HasText(RequestOutcome(block, rest, ending, limits), status,
                    if status == 408 then "request timeout"
                    else if status == 400 && IsAcceptable(block, limits) then "incomplete request body"
                    else HeadText(block, limits, status))
  {
    HeadHasText(block, limits, status);
    HeadCases(block, limits, status);
    HeadAcceptedIff(block, limits);
  }

  /** The bytes of an ASCII text are its characters. */
  lemma TextBytesAre(text: string)
    requires forall i | 0 <= i < |text| :: text[i] < 128 as char
    ensures TextBytes(text) == Ascii(text)
  {
  }

  /** A block too short for a blank line, which the reader never passes on, is a bad request. */
  lemma ShortBlockFails(block: bytes, rest: bytes, ending: Ending, limits: Limits)
    requires |block| < 4
    ensures RequestOutcome(block, rest, ending, limits) == Err(Protocol(Failure(400, "bad request", false)))
  {
  }

  /** What a client sees of a failing stream: three fields and, unless the failure is marked as the answer
      to a HEAD request, the text as the body. */
  lemma FailureAnswer(stream: bytes, ending: Ending, limits: Limits, handler: Request -> Response, status: nat)
    requires !IsCompleteRequest(stream, limits) && StreamFails(stream, ending, limits, status)
    ensures var r := HttpOutcome(stream, ending, limits);
      && HasStatus(r, status)
      && var out, text := Answer(r, handler).value, StreamText(stream, limits, status);
         out == EncodedHead(TextResponse(status, text)) + if r.error.failure.head then [] else TextBytes(text)
  {
    FailureCases(stream, ending, limits, status);
    FailureTexts(stream, ending, limits, status);
    var f := HttpOutcome(stream, ending, limits).error.failure;
    GetIsNotHead();
    EncodedBlankLine(if f.head then HEAD else GET, TextResponse(f.status, f.body));
  }

  lemma ContentTypeIsSafe()
    ensures HeaderIsSafe(CONTENT_TYPE, PLAIN_TEXT)
  {
    assert forall i | 0 <= i < |CONTENT_TYPE| :: IsTokenByte(CONTENT_TYPE[i]);
    assert forall i | 0 <= i < |PLAIN_TEXT| :: PLAIN_TEXT[i] >= 32;
  }

  lemma ContentTypeIsSent()
    ensures IsSent(CONTENT_TYPE, PLAIN_TEXT)
  {
    ContentTypeIsSafe();
    assert |CONTENT_TYPE| == 12;
    ServerNameLengths();
  }

  lemma ServerNameLengths()
    ensures |CONTENT_LENGTH| == 14 && |CONNECTION| == 10 && |TRANSFER_ENCODING| == 17
  {
  }

  lemma OneSentLine(name: bytes, value: bytes)
    requires IsSent(name, value)
    ensures SentLines([(name, value)]) == [FieldLine(name, value)]
  {
    assert [(name, value)][..0] == [];
    assert SentLines([(name, value)][..0]) == [];
  }

  /** The head of a failure answer, line by line. */
  lemma TextResponseLines(status: nat, text: string)
    ensures |EncodedHead(TextResponse(status, text))| >= 4
    ensures LinesOf(EncodedHead(TextResponse(status, text))) == [
      StatusLine(status), PlainLine((CONTENT_TYPE, PLAIN_TEXT)),
      PlainLine((LENGTH_NAME, Decimal(|text|))), PlainLine((CONNECTION_NAME, CLOSE))]
  {
    HeadIsTheLines(TextResponse(status, text));
    ContentTypeIsSent();
    OneSentLine(CONTENT_TYPE, PLAIN_TEXT);
    FieldLineIs(CONTENT_TYPE, PLAIN_TEXT);
    FieldLineIs(LENGTH_NAME, Decimal(|text|));
    FieldLineIs(CONNECTION_NAME, CLOSE);
  }
}
