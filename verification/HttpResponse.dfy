/** The response printer of `src/https_serve.rs`, and that the repository's own framing code reads
    back what it prints. */
module HttpResponse {
  import opened Prelude
  import opened HttpText
  import opened HttpReader
  import opened HttpRequest
  import opened HttpAcceptance

  datatype Response = Response(status: nat, headers: seq<(bytes, bytes)>, body: bytes)

  const STATUS_START: bytes := Ascii("HTTP/1.1 ")
  const LENGTH_NAME: bytes := Ascii("Content-Length")
  const CONNECTION_NAME: bytes := Ascii("Connection")
  const CONNECTION: bytes := Ascii("connection")
  const CLOSE: bytes := Ascii("close")

  /** No control characters, and not empty. */
  predicate IsPhrase(s: string) { s != [] && forall i | 0 <= i < |s| :: ' ' <= s[i] <= 'z' }

  function Reason(status: nat): string {
    match status
    case 200 => "OK"
    case 201 => "Created"
    case 204 => "No Content"
    case 400 => "Bad Request"
    case 404 => "Not Found"
    case 408 => "Request Timeout"
    case 413 => "Payload Too Large"
    case 417 => "Expectation Failed"
    case 431 => "Request Header Fields Too Large"
    case 500 => "Internal Server Error"
    case 501 => "Not Implemented"
    case 505 => "HTTP Version Not Supported"
    case _ => "Status"
  }

  lemma ReasonIsPhrase(status: nat)
    ensures IsPhrase(Reason(status))
  {
    SuccessPhrases();
    RequestPhrases();
    RefusalPhrases();
    ServerPhrases();
  }

  lemma SuccessPhrases()
    ensures IsPhrase("OK") && IsPhrase("Created") && IsPhrase("No Content") && IsPhrase("Status")
  {
  }

  lemma RequestPhrases()
    ensures IsPhrase("Bad Request") && IsPhrase("Not Found") && IsPhrase("Request Timeout")
  {
  }

  lemma RefusalPhrases()
    ensures IsPhrase("Payload Too Large") && IsPhrase("Expectation Failed")
    ensures IsPhrase("Request Header Fields Too Large")
  {
  }

  lemma ServerPhrases()
    ensures IsPhrase("Internal Server Error") && IsPhrase("Not Implemented") && IsPhrase("HTTP Version Not Supported")
  {
  }

  predicate HeaderIsSafe(name: bytes, value: bytes) {
    IsToken(name) && CR !in value && LF !in value && 0 !in value
  }

  /** Safe, and not one of the three fields the server sets itself. */
  predicate IsSent(name: bytes, value: bytes) {
    && HeaderIsSafe(name, value)
    && Lower(name) != CONTENT_LENGTH && Lower(name) != CONNECTION && Lower(name) != TRANSFER_ENCODING
  }

  function SentStatus(status: nat): nat { if 100 <= status < 600 then status else 500 }

  predicate IsHead(verb: bytes) { Lower(verb) == Lower(HEAD) }

  // ------------------------------------------------------------------ specification: lines

  function StatusLine(status: nat): bytes {
    ReasonIsPhrase(SentStatus(status));
    STATUS_START + Decimal(SentStatus(status)) + [SP] + Ascii(Reason(SentStatus(status)))
  }

  function FieldLine(name: bytes, value: bytes): bytes { name + [COLON] + ([SP] + value) }

  function SentLines(headers: seq<(bytes, bytes)>): seq<bytes> {
    if headers == [] then []
    else
      var (name, value) := headers[|headers| - 1];
      var before := SentLines(headers[..|headers| - 1]);
      if IsSent(name, value) then before + [FieldLine(name, value)] else before
  }

  function HeadLines(response: Response): seq<bytes> {
    [StatusLine(response.status)] + SentLines(response.headers)
      + [FieldLine(LENGTH_NAME, Decimal(|response.body|)), FieldLine(CONNECTION_NAME, CLOSE)]
  }

  function Encoded(verb: bytes, response: Response): bytes {
    Lines(HeadLines(response)) + CRLF + SentBody(verb, response)
  }

  function SentBody(verb: bytes, response: Response): bytes { if IsHead(verb) then [] else response.body }

  method EncodeResponse(verb: bytes, response: Response) returns (out: bytes)
    ensures out == Encoded(verb, response)
  {
    var status := if 100 <= response.status < 600 then response.status else 500;
    ReasonIsPhrase(status);
    out := STATUS_START + Decimal(status) + [SP] + Ascii(Reason(status)) + CRLF;
    assert out == StatusLine(response.status) + CRLF;
    out := AppendFields(out, response.headers);
    out := out + (LENGTH_NAME + [COLON] + ([SP] + Decimal(|response.body|))) + CRLF;
    out := out + (CONNECTION_NAME + [COLON] + ([SP] + CLOSE)) + CRLF;
    HeadInParts(response);
    out := out + CRLF;
    if !IsHead(verb) {
      out := out + response.body;
    }
    assert IsHead(verb) ==> out + [] == out;
  }

  /** The loop over the handler's fields. */
  method AppendFields(out0: bytes, headers: seq<(bytes, bytes)>) returns (out: bytes)
    ensures out == out0 + Lines(SentLines(headers))
  {
    out := out0;
    for i := 0 to |headers|
      invariant out == out0 + Lines(SentLines(headers[..i]))
    {
      var (name, value) := headers[i];
      assert headers[..i + 1][..i] == headers[..i];
      if !HeaderIsSafe(name, value) {
        continue;
      }
      if Lower(name) == CONTENT_LENGTH || Lower(name) == CONNECTION || Lower(name) == TRANSFER_ENCODING {
        continue;
      }
      OneMoreLine(SentLines(headers[..i]), FieldLine(name, value));
      out := out + (name + [COLON] + ([SP] + value)) + CRLF;
    }
    assert headers[..|headers|] == headers;
  }

  lemma HeadInParts(response: Response)
    ensures Lines(HeadLines(response)) == StatusLine(response.status) + CRLF + Lines(SentLines(response.headers))
      + FieldLine(LENGTH_NAME, Decimal(|response.body|)) + CRLF + FieldLine(CONNECTION_NAME, CLOSE) + CRLF
  {
    LinesInParts(StatusLine(response.status), SentLines(response.headers),
                 FieldLine(LENGTH_NAME, Decimal(|response.body|)), FieldLine(CONNECTION_NAME, CLOSE));
  }

  lemma LinesInParts(first: bytes, middle: seq<bytes>, a: bytes, b: bytes)
    ensures Lines([first] + middle + [a, b]) == first + CRLF + Lines(middle) + a + CRLF + b + CRLF
  {
    var all := [first] + middle + [a, b];
    assert all == [first] + middle + [a] + [b];
    OneMoreLine([first] + middle + [a], b);
    OneMoreLine([first] + middle, a);
    assert ([first] + middle)[1..] == middle;
  }

  lemma OneMoreLine(lines: seq<bytes>, line: bytes)
    ensures Lines(lines + [line]) == Lines(lines) + line + CRLF
  {
    LinesAppend(lines, [line]);
    assert Lines([line]) == line + CRLF + [];
  }

  // ------------------------------------------------------------------ the lines are lines

  lemma TokenIsClean(name: bytes)
    requires IsToken(name)
    ensures CR !in name && LF !in name && COLON !in name && 0 !in name && name[0] != SP && name[0] != HTAB
  {
  }

  lemma FieldLineFacts(name: bytes, value: bytes)
    requires HeaderIsSafe(name, value)
    ensures IsLine(FieldLine(name, value)) && IsFieldLine(FieldLine(name, value))
    ensures NameOf(FieldLine(name, value)) == Lower(name) && ValueOf(FieldLine(name, value)) == Trim([SP] + value)
  {
    TokenIsClean(name);
    SplitOnceAt(name, COLON, [SP] + value);
  }

  lemma StatusLineIsLine(status: nat)
    ensures IsLine(StatusLine(status))
  {
    ReasonIsPhrase(SentStatus(status));
    var start, number, reason := STATUS_START, Decimal(SentStatus(status)), Ascii(Reason(SentStatus(status)));
    assert forall i | 0 <= i < |start| :: start[i] >= 32;
    assert forall i | 0 <= i < |number| :: IsDigit(number[i]);
    assert forall i | 0 <= i < |reason| :: reason[i] >= 32;
  }

  lemma OwnFieldsAreSafe(n: nat)
    ensures HeaderIsSafe(LENGTH_NAME, Decimal(n)) && Lower(LENGTH_NAME) == CONTENT_LENGTH
    ensures HeaderIsSafe(CONNECTION_NAME, CLOSE) && Lower(CONNECTION_NAME) == CONNECTION
    ensures CONNECTION != CONTENT_LENGTH && CONNECTION != TRANSFER_ENCODING && CONTENT_LENGTH != TRANSFER_ENCODING
  {
    assert forall i | 0 <= i < |LENGTH_NAME| ::
      IsTokenByte(LENGTH_NAME[i]) && LowerByte(LENGTH_NAME[i]) == CONTENT_LENGTH[i];
    assert forall i | 0 <= i < |CONNECTION_NAME| ::
      IsTokenByte(CONNECTION_NAME[i]) && LowerByte(CONNECTION_NAME[i]) == CONNECTION[i];
    assert forall i | 0 <= i < |CLOSE| :: CLOSE[i] > 32;
    assert forall i | 0 <= i < |Decimal(n)| :: IsDigit(Decimal(n)[i]);
    assert |CONNECTION| == 10 && |CONTENT_LENGTH| == 14 && |TRANSFER_ENCODING| == 17;
  }

  lemma {:induction false} SentLinesFacts(headers: seq<(bytes, bytes)>)
    ensures AllLines(SentLines(headers)) && forall l | l in SentLines(headers) :: IsFieldLine(l)
    decreases |headers|
  {
    if headers != [] {
      var (name, value) := headers[|headers| - 1];
      SentLinesFacts(headers[..|headers| - 1]);
      if IsSent(name, value) { FieldLineFacts(name, value); }
    }
  }

  lemma HeadLinesFacts(response: Response)
    ensures AllLines(HeadLines(response))
    ensures forall l | l in HeadLines(response)[1..] :: IsFieldLine(l)
  {
    StatusLineIsLine(response.status);
    SentLinesFacts(response.headers);
    OwnFieldsAreSafe(|response.body|);
    FieldLineFacts(LENGTH_NAME, Decimal(|response.body|));
    FieldLineFacts(CONNECTION_NAME, CLOSE);
  }

  // ------------------------------------------------------------------ reading it back

  /** The encoded head, with its blank line. */
  function EncodedHead(response: Response): bytes { Lines(HeadLines(response)) + CRLF }

  /** Whatever the response contains, the first blank line is the true end of the head, and the
      header reader, given room for the head, returns it and leaves exactly the body. */
  lemma ResponseIsReread(verb: bytes, response: Response, ending: Ending, max: nat)
    requires |EncodedHead(response)| <= max
    ensures var out := Encoded(verb, response); var n := |EncodedHead(response)|;
      && HeaderOutcome(out, ending, max) == Ok(Some(n))
      && out[..n] == EncodedHead(response) && IsHeaderBlock(out[..n])
      && out[n..] == if IsHead(verb) then [] else response.body
  {
    HeadLinesFacts(response);
    HeadAndBody(HeadLines(response), SentBody(verb, response), ending, max);
  }

  /** The first blank line of an output, without a limit. */
  lemma EncodedBlankLine(verb: bytes, response: Response)
    ensures Encoded(verb, response) == EncodedHead(response) + SentBody(verb, response)
    ensures |EncodedHead(response)| >= 4
    ensures Find(Encoded(verb, response), CRLFCRLF) == Some(|EncodedHead(response)| - 4)
  {
    HeadLinesFacts(response);
    FirstBlankLine(HeadLines(response), SentBody(verb, response));
  }

  lemma HeadAndBody(lines: seq<bytes>, body: bytes, ending: Ending, max: nat)
    requires AllLines(lines) && lines != [] && |Lines(lines) + CRLF| <= max
    ensures var head := Lines(lines) + CRLF; var out := head + body;
      && HeaderOutcome(out, ending, max) == Ok(Some(|head|))
      && out[..|head|] == head && out[|head|..] == body && IsHeaderBlock(head)
  {
    var head := Lines(lines) + CRLF;
    FirstBlankLine(lines, body);
    FirstBlankLine(lines, []);
    assert head + [] == head;
  }

  /** Splitting a head at CRLF gives its lines. */
  lemma LinesOfLines(lines: seq<bytes>)
    requires AllLines(lines) && lines != []
    ensures |Lines(lines) + CRLF| >= 4 && Text(Lines(lines) + CRLF) + CRLF == Lines(lines)
    ensures LinesOf(Lines(lines) + CRLF) == lines
  {
    var front, last := lines[..|lines| - 1], lines[|lines| - 1];
    assert lines == front + [last];
    OneMoreLine(front, last);
    assert last in lines;
    assert forall l | l in front :: l in lines;
    SplitLines(front, last);
    TextOfLines(Lines(front) + last);
  }

  lemma TextOfLines(text: bytes)
    ensures |text + CRLF + CRLF| >= 4 && Text(text + CRLF + CRLF) == text
  {
  }

  /** Splitting the head at CRLF gives the status line, the safe fields the handler set that are
      not framing fields, in order, one Content-Length and `Connection: close`. */
  lemma HeadIsTheLines(response: Response)
    ensures |EncodedHead(response)| >= 4
    ensures LinesOf(EncodedHead(response)) == HeadLines(response)
  {
    HeadLinesFacts(response);
    LinesOfLines(HeadLines(response));
  }

  /** The values that the handler's own fields of this name are sent with. */
  function SentValues(headers: seq<(bytes, bytes)>, name: bytes): seq<bytes> {
    if headers == [] then []
    else
      var (n, value) := headers[|headers| - 1];
      var before := SentValues(headers[..|headers| - 1], name);
      if IsSent(n, value) && Lower(n) == name then before + [Trim([SP] + value)] else before
  }

  lemma {:induction false} SentLinesValues(headers: seq<(bytes, bytes)>, name: bytes)
    ensures Values(SentLines(headers), name) == SentValues(headers, name)
    ensures name == CONTENT_LENGTH || name == CONNECTION || name == TRANSFER_ENCODING ==>
      SentValues(headers, name) == []
    decreases |headers|
  {
    if headers != [] {
      var (n, value) := headers[|headers| - 1];
      var before := SentLines(headers[..|headers| - 1]);
      SentLinesValues(headers[..|headers| - 1], name);
      if IsSent(n, value) {
        FieldLineFacts(n, value);
        ValuesAppend(before, FieldLine(n, value), name);
      }
    }
  }

  /** Read with the request parser's own field reader, the head declares exactly one Content-Length,
      which `ParseContentLength` maps back to the length of the body, says `Connection: close`, has
      no Transfer-Encoding, and gives every other field the values the handler set. */
  lemma ResponseFields(response: Response, name: bytes)
    requires |response.body| < U64
    ensures var fields := HeadLines(response)[1..];
      && Values(fields, CONTENT_LENGTH) == [Decimal(|response.body|)]
      && ParseContentLength(Values(fields, CONTENT_LENGTH)[0]) == Ok(|response.body|)
      && Values(fields, CONNECTION) == [CLOSE]
      && Values(fields, TRANSFER_ENCODING) == []
      && (name != CONTENT_LENGTH && name != CONNECTION ==> Values(fields, name) == SentValues(response.headers, name))
  {
    DecimalRoundTrip(|response.body|);
    OwnFieldsAreSafe(|response.body|);
    FieldValues(response, CONTENT_LENGTH);
    FieldValues(response, CONNECTION);
    FieldValues(response, TRANSFER_ENCODING);
    FieldValues(response, name);
    SentLinesValues(response.headers, TRANSFER_ENCODING);
  }

  /** The values of a field in the printed head. */
  function PrintedValues(response: Response, name: bytes): seq<bytes> {
    if name == CONTENT_LENGTH then [Decimal(|response.body|)]
    else if name == CONNECTION then [CLOSE]
    else SentValues(response.headers, name)
  }

  lemma FieldValues(response: Response, name: bytes)
    ensures Values(HeadLines(response)[1..], name) == PrintedValues(response, name)
  {
    var sent := SentLines(response.headers);
    var lengthLine := FieldLine(LENGTH_NAME, Decimal(|response.body|));
    var connectionLine := FieldLine(CONNECTION_NAME, CLOSE);
    assert HeadLines(response)[1..] == sent + [lengthLine] + [connectionLine];
    OwnFieldsAreSafe(|response.body|);
    FieldLineFacts(LENGTH_NAME, Decimal(|response.body|));
    FieldLineFacts(CONNECTION_NAME, CLOSE);
    TrimDecimal(|response.body|);
    TrimKeeps(CLOSE);
    SentLinesValues(response.headers, name);
    ValuesAppend(sent, lengthLine, name);
    ValuesAppend(sent + [lengthLine], connectionLine, name);
  }
}
