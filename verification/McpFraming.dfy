/** The message framing of the MCP server (`src/agent.rs`): a header with Content-Length, a blank
    line, and the body. */
module McpFraming {
  import opened Prelude
  import opened HttpText

  const MAX_HEADER: nat := 64 * 1024
  const LENGTH_PREFIX: bytes := Ascii("Content-Length: ")
  const LENGTH_HEADER: bytes := Ascii("Content-Length")
  const LFLF: bytes := [10, 10]

  datatype McpError =
    | TruncatedHeader | HeaderTooLarge | MissingLength | TruncatedBody | BodyNotUtf8
    | ReadFailed | WriteFailed

  /** One message and the number of bytes it took, the end of the input, or an error. */
  datatype ReadOutcome = Message(body: bytes, consumed: nat) | EndOfInput | Failed(error: McpError)

  // ------------------------------------------------------------------ the header

  datatype HeaderOutcome = HeaderEnd(length: nat) | NoHeader | HeaderFailed(error: McpError)

  predicate EndsHeader(header: bytes) {
    Find(header, CRLFCRLF).Some? || (|header| >= 4 && header[|header| - 2..] == LFLF)
  }

  /** The end of the header, when `n` bytes of it have been read. After the data the input ends, or it
      is broken and reading fails. */
  function HeaderFrom(data: bytes, broken: bool, n: nat): (r: HeaderOutcome)
    requires n <= |data|
    ensures r.HeaderEnd? ==> n <= r.length <= |data|
    decreases |data| - n
  {
    if EndsHeader(data[..n]) then HeaderEnd(n)
    else if n == |data| then
      if broken then HeaderFailed(ReadFailed) else if n == 0 then NoHeader else HeaderFailed(TruncatedHeader)
    else if n + 1 > MAX_HEADER then HeaderFailed(HeaderTooLarge)
    else HeaderFrom(data, broken, n + 1)
  }

  /** The header is the shortest prefix that ends one. Reading fails exactly when no prefix of at most
      64 KiB does: the header is too large if the input goes on, truncated if it stops. */
  lemma {:induction false} HeaderIsFirst(data: bytes, broken: bool, n: nat)
    requires n <= |data| && n <= 65536 && forall k: nat | k < n :: !EndsHeader(data[..k])
    ensures
      match HeaderFrom(data, broken, n)
      case HeaderEnd(end) => && end <= 65536 && EndsHeader(data[..end])
                             && forall k: nat | k < end :: !EndsHeader(data[..k])
      case NoHeader => data == [] && !broken
      case HeaderFailed(e) =>
        && e == (if |data| > 65536 then HeaderTooLarge else if broken then ReadFailed else TruncatedHeader)
        && (data != [] || broken)
        && forall k: nat | k <= |data| && k <= 65536 :: !EndsHeader(data[..k])
    decreases |data| - n
  {
    if !EndsHeader(data[..n]) && n < |data| && n < 65536 {
      HeaderIsFirst(data, broken, n + 1);
    }
  }

  /** A header ends with a blank line of CRLF, or, from four bytes on, with two LF. */
  lemma EndsHeaderIff(header: bytes)
    ensures EndsHeader(header) <==>
      || (exists p: nat :: IsAt(header, [13, 10, 13, 10], p))
      || (|header| >= 4 && header[|header| - 2] == 10 && header[|header| - 1] == 10)
  {
    if |header| >= 4 {
      assert header[|header| - 2..] == [header[|header| - 2], header[|header| - 1]];
    }
  }

  // ------------------------------------------------------------------ the length

  /** Lossy decoding replaces each maximal ill-formed piece by U+FFFD. */
  function Lossy(s: bytes): bytes
    decreases |s|
  {
    if s == [] then []
    else if CharLength(s) > 0 then s[..CharLength(s)] + Lossy(s[CharLength(s)..])
    else [0xEF, 0xBF, 0xBD] + Lossy(s[BadLength(s)..])
  }

  function BadLength(s: bytes): (n: nat)
    requires s != []
    ensures 1 <= n <= |s|
  {
    var a := s[0];
    if |s| >= 2 && IsTail(s[1]) && 0xE0 <= a <= 0xF4
       && (a == 0xE0 ==> s[1] >= 0xA0) && (a == 0xED ==> s[1] <= 0x9F)
       && (a == 0xF0 ==> s[1] >= 0x90) && (a == 0xF4 ==> s[1] <= 0x8F) then
      if a >= 0xF0 && |s| >= 3 && IsTail(s[2]) then 3 else 2
    else 1
  }

  function StripCr(line: bytes): bytes {
    if line != [] && line[|line| - 1] == CR then line[..|line| - 1] else line
  }

  /** An unsigned number as Rust parses it: digits with an optional plus sign. */
  function ParseUsize(s: bytes): Option<nat> {
    var digits := if s != [] && s[0] == 43 then s[1..] else s;
    if digits == [] || !AllDigits(digits) || DecimalValue(digits) >= U64 then None else Some(DecimalValue(digits))
  }

  function LineLength(line: bytes): Option<nat> {
    match SplitOnce(line, COLON)
    case None => None
    case Some((name, value)) => if Lower(name) == CONTENT_LENGTH then ParseUsize(Trim(value)) else None
  }

  /** The length given by the first line that gives one. */
  function FirstLength(lines: seq<bytes>): Option<nat> {
    if lines == [] then None
    else
      match LineLength(StripCr(lines[0]))
      case Some(n) => Some(n)
      case None => FirstLength(lines[1..])
  }

  /** What the rest of the message is, given its header and the bytes after it. */
  function AfterHeader(header: bytes, rest: bytes, broken: bool): (r: ReadOutcome)
    ensures r.Message? ==> |header| <= r.consumed <= |header| + |rest|
  {
    var text := Lossy(header);
    if Find(Lower(text), CONTENT_LENGTH).None? then
      if Trim(text) == [] then EndOfInput else Message(Trim(text), |header|)
    else AfterLength(FirstLength(Split(text, [LF])), |header|, rest, broken)
  }

  /** The same after a header of `size` bytes that names a length and gives it, or does not. */
  function AfterLength(length: Option<nat>, size: nat, rest: bytes, broken: bool): (r: ReadOutcome)
    ensures r.Message? ==> size <= r.consumed <= size + |rest|
  {
    match length
    case None => Failed(MissingLength)
    case Some(n) =>
      if n > |rest| then Failed(if broken then ReadFailed else TruncatedBody)
      else if !IsUtf8(rest[..n]) then Failed(BodyNotUtf8)
      else Message(rest[..n], size + n)
  }

  function ReadOne(data: bytes, broken: bool): (r: ReadOutcome)
    ensures r.Message? ==> 0 < r.consumed <= |data|
  {
    match HeaderFrom(data, broken, 0)
    case NoHeader => EndOfInput
    case HeaderFailed(e) => Failed(e)
    case HeaderEnd(n) => assert !EndsHeader([]); AfterHeader(data[..n], data[n..], broken)
  }

  class Input {
    const data: bytes
    const broken: bool
    var pos: nat

    ghost predicate Valid() reads this { pos <= |data| }

    ghost function Rest(): bytes
      reads this
      requires Valid()
    {
      data[pos..]
    }

    constructor (data: bytes, broken: bool)
      ensures Valid() && Rest() == data && this.broken == broken
    {
      this.data, this.broken, pos := data, broken, 0;
    }

    /** The loop that reads the header byte by byte. */
    method ReadHeader() returns (r: HeaderOutcome, header: bytes)
      requires Valid()
      modifies this`pos
      ensures Valid() && r == HeaderFrom(old(Rest()), broken, 0)
      ensures r.HeaderEnd? ==> header == old(Rest())[..r.length] && Rest() == old(Rest())[r.length..]
    {
      ghost var all := Rest();
      header := [];
      while !EndsHeader(header)
        invariant Valid() && |header| <= |all| && header == all[..|header|] && Rest() == all[|header|..]
        invariant |header| <= MAX_HEADER && HeaderFrom(all, broken, 0) == HeaderFrom(all, broken, |header|)
        decreases |data| - pos
      {
        if pos == |data| {
          assert |header| == |all|;
          if broken { return HeaderFailed(ReadFailed), header; }
          return if header == [] then NoHeader else HeaderFailed(TruncatedHeader), header;
        }
        header := header + [data[pos]];
        pos := pos + 1;
        if |header| > MAX_HEADER {
          return HeaderFailed(HeaderTooLarge), header;
        }
      }
      r := HeaderEnd(|header|);
    }

    /** The header is read byte by byte, the body in one piece. */
    method ReadMcpMessage() returns (r: ReadOutcome)
      requires Valid()
      modifies this`pos
      ensures Valid() && r == ReadOne(old(Rest()), broken)
      ensures r.Message? ==> Rest() == old(Rest())[r.consumed..]
    {
      var end, header := ReadHeader();
      match end {
        case NoHeader => r := EndOfInput;
        case HeaderFailed(e) => r := Failed(e);
        case HeaderEnd(_) =>
          r := AfterHeader(header, data[pos..], broken);
          if r.Message? {
            pos := pos + (r.consumed - |header|);
          }
      }
    }
  }

  // ------------------------------------------------------------------ printing

  function Frame(body: bytes): bytes { LENGTH_PREFIX + Decimal(|body|) + CRLFCRLF + body }

  /** Whether an output with this much room takes the bytes. */
  predicate HasRoom(room: Option<nat>, bytes: bytes) { room.None? || |bytes| <= room.value }

  /** What such an output has taken when writing the bytes is over. */
  function Written(room: Option<nat>, bytes: bytes): bytes {
    if HasRoom(room, bytes) then bytes else bytes[..room.value]
  }

  method WriteMcpMessage(output: bytes, room: Option<nat>, body: bytes) returns (longer: bytes, ok: bool)
    ensures ok == HasRoom(room, output + Frame(body)) && longer == Written(room, output + Frame(body))
    ensures ok <==> room.None? || |output| + |Frame(body)| <= room.value
    ensures longer == if ok then output + Frame(body) else (output + Frame(body))[..room.value]
  {
    longer := output + (LENGTH_PREFIX + Decimal(|body|) + CRLFCRLF + body);
    ok := room.None? || |longer| <= room.value;
    if !ok {
      longer := longer[..room.value];
    }
  }

  function Frames(bodies: seq<bytes>): bytes {
    if bodies == [] then [] else Frame(bodies[0]) + Frames(bodies[1..])
  }

  lemma FramesAppend(bodies: seq<bytes>, body: bytes)
    ensures Frames(bodies + [body]) == Frames(bodies) + Frame(body)
  {
    FramesConcat(bodies, [body]);
    FramesCons([body]);
    assert Frame(body) + [] == Frame(body);
  }

  lemma {:induction false} FramesConcat(a: seq<bytes>, b: seq<bytes>)
    ensures Frames(a + b) == Frames(a) + Frames(b)
    decreases |a|
  {
    if a == [] {
      assert a + b == b;
    } else {
      FramesConcat(a[1..], b);
      FramesCons(a);
      FramesCons(a + b);
      assert (a + b)[1..] == a[1..] + b;
      Associative(Frame(a[0]), Frames(a[1..]), Frames(b));
    }
  }

  lemma FramesCons(bodies: seq<bytes>)
    requires bodies != []
    ensures Frames(bodies) == Frame(bodies[0]) + Frames(bodies[1..])
  {
  }

  /** A body that a frame can carry: text whose length fits 64 bits. */
  predicate IsBody(body: bytes) { IsUtf8(body) && |body| < U64 }

  function LengthLine(n: nat): bytes { LENGTH_PREFIX + Decimal(n) }

  lemma LengthLineFacts(n: nat)
    ensures IsLine(LengthLine(n)) && COLON !in LENGTH_HEADER
    ensures LengthLine(n) == LENGTH_HEADER + [COLON] + ([SP] + Decimal(n))
    ensures forall i | 0 <= i < |LengthLine(n)| :: LengthLine(n)[i] < 0x80
    ensures Lower(LENGTH_HEADER) == CONTENT_LENGTH
  {
    assert forall i | 0 <= i < |LENGTH_PREFIX| :: 32 <= LENGTH_PREFIX[i] < 0x80;
    assert forall i | 0 <= i < |Decimal(n)| :: IsDigit(Decimal(n)[i]);
    assert LENGTH_PREFIX == LENGTH_HEADER + [COLON] + [SP];
    assert forall i | 0 <= i < |LENGTH_HEADER| :: LENGTH_HEADER[i] != COLON;
    assert forall i | 0 <= i < |LENGTH_HEADER| :: LowerByte(LENGTH_HEADER[i]) == CONTENT_LENGTH[i];
  }

  // ------------------------------------------------------------------ the number of digits

  function Pow10(k: nat): nat { if k == 0 then 1 else 10 * Pow10(k - 1) }

  lemma {:induction false} DecimalShort(n: nat, k: nat)
    requires k > 0 && n < Pow10(k)
    ensures |Decimal(n)| <= k
    decreases k
  {
    if n >= 10 {
      assert k > 1;
      DecimalShort(n / 10, k - 1);
    }
  }

  lemma FiveMore(k: nat)
    ensures Pow10(k + 5) == 100000 * Pow10(k)
  {
    assert Pow10(k + 5) == 10 * Pow10(k + 4);
    assert Pow10(k + 4) == 10 * Pow10(k + 3);
    assert Pow10(k + 3) == 10 * Pow10(k + 2);
    assert Pow10(k + 2) == 10 * Pow10(k + 1);
  }

  lemma TwentyDigits(n: nat)
    requires n < U64
    ensures |Decimal(n)| <= 20
  {
    FiveMore(0); FiveMore(5); FiveMore(10); FiveMore(15);
    DecimalShort(n, 20);
  }

  // ------------------------------------------------------------------ round trip

  /** The reader stops exactly at the blank line of a frame. */
  lemma FrameHeaderEnds(n: nat, rest: bytes, broken: bool)
    requires n < U64
    ensures HeaderFrom(LengthLine(n) + CRLFCRLF + rest, broken, 0) == HeaderEnd(|LengthLine(n)| + 4)
  {
    LengthLineFacts(n);
    TwentyDigits(n);
    LineEndsHeader(LengthLine(n), rest, broken);
  }

  lemma LineEndsHeader(line: bytes, rest: bytes, broken: bool)
    requires IsLine(line) && |line| + 4 <= MAX_HEADER
    ensures HeaderFrom(line + CRLFCRLF + rest, broken, 0) == HeaderEnd(|line| + 4)
  {
    var data := line + CRLFCRLF + rest;
    BlankLineAfter(line, rest);
    assert data == line + CRLF + (CRLF + rest);
    forall k: nat | k < |line| + 4 ensures !EndsHeader(data[..k]) {
      NotYet(line, rest, k);
    }
    var head := data[..|line| + 4];
    assert head[|line|..|line| + 4] == CRLFCRLF;
    FindSomewhere(head, CRLFCRLF, |line|);
    HeaderFromReaches(data, broken, 0, |line| + 4);
  }

  lemma NotYet(line: bytes, rest: bytes, k: nat)
    requires IsLine(line) && k < |line| + 4
    requires Find(line + CRLFCRLF + rest, CRLFCRLF) == Some(|line|)
    ensures !EndsHeader((line + CRLFCRLF + rest)[..k])
  {
    var data := line + CRLFCRLF + rest;
    var head := data[..k];
    assert data == head + data[k..];
    FindInPrefix(head, data[k..], CRLFCRLF);
    if k >= 4 {
      if k - 2 < |line| {
        assert head[k - 2] == line[k - 2] && line[k - 2] in line;
      }
      if k - 1 < |line| {
        assert head[k - 1] == line[k - 1] && line[k - 1] in line;
      }
      assert head[k - 2..][0] == head[k - 2] && head[k - 2..][1] == head[k - 1];
    }
  }

  lemma {:induction false} HeaderFromReaches(data: bytes, broken: bool, n: nat, end: nat)
    requires n <= end <= |data| && end <= MAX_HEADER
    requires EndsHeader(data[..end]) && forall k: nat | k < end :: !EndsHeader(data[..k])
    ensures HeaderFrom(data, broken, n) == HeaderEnd(end)
    decreases end - n
  {
    if n < end {
      HeaderFromReaches(data, broken, n + 1, end);
    }
  }

  lemma {:induction false} LossyAscii(s: bytes)
    requires forall i | 0 <= i < |s| :: s[i] < 0x80
    ensures Lossy(s) == s
    decreases |s|
  {
    if s != [] {
      LossyAscii(s[1..]);
      assert s == s[..1] + s[1..];
    }
  }

  lemma FindSomewhere(s: bytes, pattern: bytes, p: nat)
    requires IsAt(s, pattern, p)
    ensures Find(s, pattern).Some?
  {
    assert Find(s, pattern).None? ==> !IsAt(s, pattern, p);
  }

  lemma HeaderNamesLength(n: nat)
    ensures var header := LengthLine(n) + CRLFCRLF;
      Lossy(header) == header && Find(Lower(header), CONTENT_LENGTH).Some?
  {
    var header := LengthLine(n) + CRLFCRLF;
    LengthLineFacts(n);
    LossyAscii(header);
    assert Lower(header)[..|CONTENT_LENGTH|] == CONTENT_LENGTH by {
      assert forall i | 0 <= i < |CONTENT_LENGTH| :: header[i] == LENGTH_HEADER[i];
    }
    FindSomewhere(Lower(header), CONTENT_LENGTH, 0);
  }

  lemma LineGivesLength(n: nat)
    requires n < U64
    ensures LineLength(LengthLine(n)) == Some(n)
  {
    LengthLineFacts(n);
    SplitOnceAt(LENGTH_HEADER, COLON, [SP] + Decimal(n));
    TrimDecimal(n);
    DecimalRoundTrip(n);
    assert IsDigit(Decimal(n)[0]);
  }

  lemma HeaderGivesLength(n: nat)
    requires n < U64
    ensures FirstLength(Split(LengthLine(n) + CRLFCRLF, [LF])) == Some(n)
  {
    var line := LengthLine(n);
    LengthLineFacts(n);
    LineGivesLength(n);
    FirstPiece(line + [CR], [CR, LF]);
    assert line + CRLFCRLF == line + [CR] + [LF] + [CR, LF];
    assert StripCr(line + [CR]) == line;
  }

  lemma FirstPiece(piece: bytes, rest: bytes)
    requires LF !in piece
    ensures Split(piece + [LF] + rest, [LF])[0] == piece
  {
    var s := piece + [LF] + rest;
    assert s[|piece|..|piece| + 1] == [LF];
    forall q: nat | q < |piece| ensures !IsAt(s, [LF], q) {
      assert s[q..q + 1] == [piece[q]];
    }
    FindIs(s, [LF], |piece|);
    assert s[..|piece|] == piece;
  }

  lemma NamedLength(header: bytes, rest: bytes, broken: bool)
    requires Lossy(header) == header && Find(Lower(header), CONTENT_LENGTH).Some?
    ensures AfterHeader(header, rest, broken) ==
      AfterLength(FirstLength(Split(header, [LF])), |header|, rest, broken)
  {
  }

  lemma GivenLength(n: nat, size: nat, rest: bytes, broken: bool)
    requires n <= |rest| && IsUtf8(rest[..n])
    ensures AfterLength(Some(n), size, rest, broken) == Message(rest[..n], size + n)
  {
  }

  /** Reading a printed frame gives its body and consumes exactly the frame, whatever follows. */
  lemma FrameRoundTrip(body: bytes, rest: bytes, broken: bool)
    requires IsBody(body)
    ensures ReadOne(Frame(body) + rest, broken) == Message(body, |Frame(body)|)
  {
    var n := |body|;
    var header, data := LengthLine(n) + CRLFCRLF, Frame(body) + rest;
    Associative(header, body, rest);
    assert data == header + (body + rest);
    FrameHeaderEnds(n, body + rest, broken);
    assert data[..|header|] == header && data[|header|..] == body + rest;
    FrameBody(body, rest, broken);
  }

  lemma FrameBody(body: bytes, rest: bytes, broken: bool)
    requires IsBody(body)
    ensures var header := LengthLine(|body|) + CRLFCRLF;
      AfterHeader(header, body + rest, broken) == Message(body, |header| + |body|)
  {
    HeaderNamesLength(|body|);
    HeaderGivesLength(|body|);
    NamedLength(LengthLine(|body|) + CRLFCRLF, body + rest, broken);
    var all := body + rest;
    assert |all| >= |body| && all[..|body|] == body;
    GivenLength(|body|, |LengthLine(|body|) + CRLFCRLF|, all, broken);
  }

  // ------------------------------------------------------------------ streams of messages

  /** All messages of an input, and how reading ends: None at a clean end, else the error. */
  function Messages(data: bytes, broken: bool): (r: (seq<bytes>, Option<McpError>))
    decreases |data|
  {
    match ReadOne(data, broken)
    case EndOfInput => ([], None)
    case Failed(e) => ([], Some(e))
    case Message(body, consumed) =>
      var (more, end) := Messages(data[consumed..], broken);
      ([body] + more, end)
  }

  /** Reading one message of an input whose messages are `all` and which ends with `end`, when `k`
      of them have been read. */
  method NextMessage(input: Input, ghost all: seq<bytes>, ghost k: nat, ghost end: Option<McpError>)
    returns (r: ReadOutcome)
    requires input.Valid() && k <= |all| && Messages(input.Rest(), input.broken) == (all[k..], end)
    modifies input`pos
    ensures input.Valid()
    ensures r.Message? ==> k < |all| && r.body == all[k] && Messages(input.Rest(), input.broken) == (all[k + 1..], end)
    ensures !r.Message? ==> k == |all| && all[..k] == all && end == if r.Failed? then Some(r.error) else None
  {
    r := input.ReadMcpMessage();
    if r.Message? {
      ghost var more := Messages(input.Rest(), input.broken).0;
      assert all[k..] == [r.body] + more;
      assert all[k + 1..] == all[k..][1..] == more;
    }
  }

  /** Printing any list of bodies and reading the stream gives the same list, and then the end of the
      input, or the error of a broken one. */
  lemma {:induction false} FramesRoundTrip(bodies: seq<bytes>, broken: bool)
    requires forall b | b in bodies :: IsBody(b)
    ensures Messages(Frames(bodies), broken) == (bodies, if broken then Some(ReadFailed) else None)
    decreases |bodies|
  {
    if bodies == [] {
      assert !EndsHeader([]);
    } else {
      var body, rest := bodies[0], bodies[1..];
      assert bodies == [body] + rest;
      FrameRoundTrip(body, Frames(rest), broken);
      FramesRoundTrip(rest, broken);
      assert Frames(bodies)[|Frame(body)|..] == Frames(rest);
    }
  }
}
