/** The request parser of `src/https_serve.rs`. */
module HttpRequest {
  import opened Prelude
  import opened HttpText
  import opened HttpReader

  datatype Limits = Limits(maxHeaderBytes: nat, maxBodyBytes: nat, maxHeaderCount: nat)

  datatype Request = Request(verb: bytes, target: bytes, headers: map<bytes, bytes>, body: bytes)

  datatype Incoming = Closed | Received(request: Request)

  /** Everything the header block says. */
  datatype Head = Head(verb: bytes, target: bytes, headers: map<bytes, bytes>, bodyLen: nat)

  const HTTP11: bytes := Ascii("HTTP/1.1")
  const HTTP_SLASH: bytes := Ascii("HTTP/")
  const HEAD: bytes := Ascii("HEAD")
  const HOST: bytes := Ascii("host")
  const TRANSFER_ENCODING: bytes := Ascii("transfer-encoding")
  const EXPECT: bytes := Ascii("expect")

  predicate IsUppercaseMethod(verb: bytes) {
    1 <= |verb| <= 20 && forall i | 0 <= i < |verb| :: 65 <= verb[i] <= 90
  }

  /** RFC 9110, section 5.6.2. */
  predicate IsTokenByte(b: byte) {
    || 48 <= b <= 57 || 65 <= b <= 90 || 97 <= b <= 122
    || b == 33 || 35 <= b <= 39 || b == 42 || b == 43 || b == 45 || b == 46
    || b == 94 || b == 95 || b == 96 || b == 124 || b == 126
  }

  predicate IsToken(name: bytes) { name != [] && forall i | 0 <= i < |name| :: IsTokenByte(name[i]) }

  function ParseContentLength(value: bytes): Result<nat> {
    if value == [] || !AllDigits(value) || DecimalValue(value) >= U64 then
      Err(Fail(400, "invalid content-length", false))
    else Ok(DecimalValue(value))
  }

  // ------------------------------------------------------------------ header fields, one by one

  datatype Fields = Fields(
    headers: map<bytes, bytes>, count: nat, hosts: nat, contentLengths: seq<bytes>,
    sawTransferEncoding: bool, sawExpect: bool)

  const NO_FIELDS := Fields(map[], 0, 0, [], false, false)

  function BadRequest(head: bool): ReadError { Fail(400, "bad request", head) }

  function AddField(f: Fields, line: bytes, maxCount: nat, head: bool): Result<Fields> {
    if line == [] then Ok(f)
    else if line[0] == SP || line[0] == HTAB then Err(BadRequest(head))
    else
      match SplitOnce(line, COLON)
      case None => Err(BadRequest(head))
      case Some((name, raw)) =>
        if !IsToken(name) || 0 in raw then Err(BadRequest(head))
        else if f.count + 1 > maxCount then Err(Fail(431, "request headers too large", head))
        else Ok(Record(f, Lower(name), Trim(raw)))
  }

  function Record(f: Fields, name: bytes, value: bytes): Fields {
    Fields(
      f.headers[name := value],
      f.count + 1,
      if name == HOST then f.hosts + 1 else f.hosts,
      if name == CONTENT_LENGTH then f.contentLengths + [value] else f.contentLengths,
      f.sawTransferEncoding || name == TRANSFER_ENCODING,
      f.sawExpect || name == EXPECT)
  }

  /** All lines from the left; the first bad line ends it. */
  function AddFields(lines: seq<bytes>, maxCount: nat, head: bool): Result<Fields> {
    if lines == [] then Ok(NO_FIELDS)
    else
      match AddFields(lines[..|lines| - 1], maxCount, head)
      case Err(e) => Err(e)
      case Ok(f) => AddField(f, lines[|lines| - 1], maxCount, head)
  }

  // ------------------------------------------------------------------ the head of a request

  /** The request line split at single spaces, or the error. */
  function RequestLine(line: bytes): Result<(bytes, bytes)> {
    var parts := Split(line, [SP]);
    if |parts| != 3 then Err(BadRequest(false))
    else if parts[2] != HTTP11 then
      if HTTP_SLASH <= parts[2] then Err(Fail(505, "HTTP/1.1 required", false)) else Err(BadRequest(false))
    else if !IsUppercaseMethod(parts[0]) then Err(BadRequest(false))
    else if parts[1] == [] || parts[1][0] != 47 || 0 in parts[1] then
      Err(Fail(400, "origin-form target required", parts[0] == HEAD))
    else Ok((parts[0], parts[1]))
  }

  /** The checks after the last header line: host, framing and size. */
  function BodyLength(f: Fields, maxBodyBytes: nat, head: bool): Result<nat> {
    if f.hosts == 0 then Err(Fail(400, "host header required", head))
    else if f.hosts > 1 then Err(Fail(400, "invalid host header", head))
    else if f.sawTransferEncoding && f.contentLengths != [] then Err(Fail(400, "invalid content-length", head))
    else if f.sawTransferEncoding then Err(Fail(501, "transfer-encoding is not supported", head))
    else if f.sawExpect then Err(Fail(417, "expectation failed", head))
    else if |f.contentLengths| > 1 then Err(Fail(400, "invalid content-length", head))
    else if f.contentLengths == [] then Ok(0)
    else
      match ParseContentLength(f.contentLengths[0])
      case Err(e) => Err(e)
      case Ok(n) => if n > maxBodyBytes then Err(Fail(413, "request body too large", head)) else Ok(n)
  }

  function Text(block: bytes): bytes
    requires |block| >= 4
  {
    block[..|block| - 4]
  }

  /** The lines of the block without its blank line. */
  function LinesOf(block: bytes): (lines: seq<bytes>)
    requires |block| >= 4
    ensures |lines| >= 1
  {
    Split(Text(block), CRLF)
  }

  function HeadOf(block: bytes, limits: Limits): Result<Head> {
    if |block| < 4 then Err(BadRequest(false))
    else if 0 in Text(block) || !IsUtf8(Text(block)) then Err(BadRequest(false))
    else
      var lines := LinesOf(block);
      match RequestLine(lines[0])
      case Err(e) => Err(e)
      case Ok((verb, target)) =>
        match AddFields(lines[1..], limits.maxHeaderCount, verb == HEAD)
        case Err(e) => Err(e)
        case Ok(f) =>
          match BodyLength(f, limits.maxBodyBytes, verb == HEAD)
          case Err(e) => Err(e)
          case Ok(n) => Ok(Head(verb, target, f.headers, n))
  }

  method ParseRequest(block: bytes, rest: bytes, reader: ByteReader, limits: Limits) returns (r: Result<Incoming>)
    requires reader.Valid()
    modifies reader`pos, reader`plan
    ensures reader.Valid()
    ensures r == RequestOutcome(block, rest + old(reader.Rest()), reader.ending, limits)
  {
    if |block| < 4 {
      return Err(BadRequest(false));
    }
    var text := block[..|block| - 4];
    if 0 in text || !IsUtf8(text) {
      return Err(BadRequest(false));
    }
    var lines := Split(text, CRLF);
    var requestLine := RequestLine(lines[0]);
    if requestLine.Err? {
      return Err(requestLine.error);
    }
    var (verb, target) := requestLine.value;
    var fields := ParseFields(lines[1..], limits.maxHeaderCount, verb == HEAD);
    if fields.Err? {
      return Err(fields.error);
    }
    var bodyLen := BodyLength(fields.value, limits.maxBodyBytes, verb == HEAD);
    if bodyLen.Err? {
      return Err(bodyLen.error);
    }
    var body := ReadBody(reader, rest, bodyLen.value);
    if body.Err? {
      return Err(body.error);
    }
    return Ok(Received(Request(verb, target, fields.value.headers, body.value)));
  }

  /** The loop over the header lines, with one counter or flag for each thing it watches. */
  method ParseFields(lines: seq<bytes>, maxCount: nat, head: bool) returns (r: Result<Fields>)
    ensures r == AddFields(lines, maxCount, head)
  {
    var headers: map<bytes, bytes> := map[];
    var count, hosts := 0, 0;
    var contentLengths: seq<bytes> := [];
    var sawTransferEncoding, sawExpect := false, false;
    for i := 0 to |lines|
      invariant AddFields(lines[..i], maxCount, head) ==
        Ok(Fields(headers, count, hosts, contentLengths, sawTransferEncoding, sawExpect))
    {
      var line := lines[i];
      OneMoreField(lines, i, maxCount, head);
      if line == [] {
        continue;
      }
      if line[0] == SP || line[0] == HTAB {
        FieldsFail(lines, i, maxCount, head);
        return Err(BadRequest(head));
      }
      var parts := SplitOnce(line, COLON);
      if parts.None? || !IsToken(parts.value.0) || 0 in parts.value.1 {
        FieldsFail(lines, i, maxCount, head);
        return Err(BadRequest(head));
      }
      count := count + 1;
      if count > maxCount {
        FieldsFail(lines, i, maxCount, head);
        return Err(Fail(431, "request headers too large", head));
      }
      var value, lower := Trim(parts.value.1), Lower(parts.value.0);
      hosts, contentLengths, sawTransferEncoding, sawExpect := WatchField(
        Fields(headers, count - 1, hosts, contentLengths, sawTransferEncoding, sawExpect),
        lower, value, hosts, contentLengths, sawTransferEncoding, sawExpect);
      headers := headers[lower := value];
    }
    assert lines[..|lines|] == lines;
    return Ok(Fields(headers, count, hosts, contentLengths, sawTransferEncoding, sawExpect));
  }

  /** The counter or flag that watches for this name, if there is one. */
  method WatchField(ghost f: Fields, lower: bytes, value: bytes,
                    hosts0: nat, lengths0: seq<bytes>, encoded0: bool, expects0: bool)
    returns (hosts: nat, lengths: seq<bytes>, encoded: bool, expects: bool)
    requires f == Fields(f.headers, f.count, hosts0, lengths0, encoded0, expects0)
    ensures Record(f, lower, value) == Fields(f.headers[lower := value], f.count + 1, hosts, lengths, encoded, expects)
  {
    NamesDiffer();
    hosts, lengths, encoded, expects := hosts0, lengths0, encoded0, expects0;
    if lower == HOST {
      hosts := hosts + 1;
    } else if lower == CONTENT_LENGTH {
      lengths := lengths + [value];
    } else if lower == TRANSFER_ENCODING {
      encoded := true;
    } else if lower == EXPECT {
      expects := true;
    }
  }

  lemma NamesDiffer()
    ensures HOST != CONTENT_LENGTH && HOST != TRANSFER_ENCODING && HOST != EXPECT
    ensures CONTENT_LENGTH != TRANSFER_ENCODING && CONTENT_LENGTH != EXPECT && TRANSFER_ENCODING != EXPECT
  {
    assert HOST[0] == 104 && CONTENT_LENGTH[0] == 99 && TRANSFER_ENCODING[0] == 116 && EXPECT[0] == 101;
  }

  lemma OneMoreField(lines: seq<bytes>, i: nat, maxCount: nat, head: bool)
    requires i < |lines| && AddFields(lines[..i], maxCount, head).Ok?
    ensures AddFields(lines[..i + 1], maxCount, head) ==
      AddField(AddFields(lines[..i], maxCount, head).value, lines[i], maxCount, head)
  {
    assert lines[..i + 1][..i] == lines[..i];
  }

  lemma {:induction false} FieldsFail(lines: seq<bytes>, i: nat, maxCount: nat, head: bool)
    requires i < |lines| && AddFields(lines[..i + 1], maxCount, head).Err?
    ensures AddFields(lines, maxCount, head) == AddFields(lines[..i + 1], maxCount, head)
    decreases |lines|
  {
    if i + 1 == |lines| {
      assert lines[..i + 1] == lines;
    } else {
      assert lines[..|lines| - 1][..i + 1] == lines[..i + 1];
      FieldsFail(lines[..|lines| - 1], i, maxCount, head);
    }
  }

  // ------------------------------------------------------------------ the whole request

  function RequestOutcome(block: bytes, stream: bytes, ending: Ending, limits: Limits): Result<Incoming> {
    match HeadOf(block, limits)
    case Err(e) => Err(e)
    case Ok(h) =>
      match BodyOutcome(stream, ending, h.bodyLen)
      case Err(e) => Err(e)
      case Ok(body) => Ok(Received(Request(h.verb, h.target, h.headers, body)))
  }

  function HttpOutcome(stream: bytes, ending: Ending, limits: Limits): Result<Incoming> {
    match HeaderOutcome(stream, ending, limits.maxHeaderBytes)
    case Err(e) => Err(e)
    case Ok(None) => Ok(Closed)
    case Ok(Some(n)) =>
      if n <= |stream| then RequestOutcome(stream[..n], stream[n..], ending, limits) else Err(BadRequest(false))
  }

  /** Reading a request gives a function of the bytes and of how the stream ends. The delivery plan
      of the reader, with its chunk sizes and interruptions, does not appear in it. */
  method ReadHttp11(reader: ByteReader, limits: Limits) returns (r: Result<Incoming>)
    requires reader.Valid()
    modifies reader`pos, reader`plan
    ensures reader.Valid()
    ensures r == HttpOutcome(old(reader.Rest()), reader.ending, limits)
  {
    ghost var stream := reader.Rest();
    var block := ReadHeaderBlock(reader, limits.maxHeaderBytes);
    if block.Err? {
      return Err(block.error);
    }
    if block.value.None? {
      return Ok(Closed);
    }
    var (header, rest) := block.value.value;
    assert stream == header + (rest + reader.Rest());
    assert stream[..|header|] == header && stream[|header|..] == rest + reader.Rest();
    r := ParseRequest(header, rest, reader, limits);
  }
}
