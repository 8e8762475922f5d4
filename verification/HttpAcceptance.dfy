/** Which requests the parser accepts, without the order of its checks. */
module HttpAcceptance {
  import opened Prelude
  import opened HttpText
  import opened HttpReader
  import opened HttpRequest

  /** A block as `ReadHeaderBlock` returns it: the first blank line is its end. */
  predicate IsHeaderBlock(block: bytes) {
    |block| >= 4 && Find(block, CRLFCRLF) == Some(|block| - 4)
  }

  /** What the reader hands to the parser is such a block. */
  lemma ReaderGivesHeaderBlocks(stream: bytes, ending: Ending, max: nat)
    requires HeaderOutcome(stream, ending, max).Ok? && HeaderOutcome(stream, ending, max).value.Some?
    ensures var n := HeaderOutcome(stream, ending, max).value.value;
      n <= |stream| && n <= max && IsHeaderBlock(stream[..n])
  {
    var n := HeaderOutcome(stream, ending, max).value.value;
    var block := stream[..n];
    assert stream == block + stream[n..];
    IsAtPrefix(block, stream[n..], CRLFCRLF, n - 4);
    forall q: nat | q < n - 4 ensures !IsAt(block, CRLFCRLF, q) {
      IsAtPrefix(block, stream[n..], CRLFCRLF, q);
    }
    FindIs(block, CRLFCRLF, n - 4);
  }

  // ------------------------------------------------------------------ empty lines

  /** If the text is followed by its first blank line, splitting it gives no empty piece after the
      first one. */
  lemma {:induction false} NoEmptyPieces(text: bytes)
    requires Find(text + CRLFCRLF, CRLFCRLF) == Some(|text|)
    ensures forall i | 1 <= i < |Split(text, CRLF)| :: Split(text, CRLF)[i] != []
    decreases |text|
  {
    var found := Find(text, CRLF);
    if found.Some? {
      RestIsText(text, found.value);
      NoEmptyPieces(text[found.value + 2..]);
      FirstPieceNotEmpty(text, found.value);
    }
  }

  /** What follows a line is again followed by its first blank line. */
  lemma RestIsText(text: bytes, p: nat)
    requires Find(text + CRLFCRLF, CRLFCRLF) == Some(|text|) && p + 2 <= |text|
    ensures Find(text[p + 2..] + CRLFCRLF, CRLFCRLF) == Some(|text| - p - 2)
  {
    var front, rest := text[..p + 2], text[p + 2..];
    var tail := rest + CRLFCRLF;
    assert text + CRLFCRLF == front + tail;
    assert tail[|rest|..|rest| + 4] == CRLFCRLF;
    forall q: nat | q < |rest| ensures !IsAt(tail, CRLFCRLF, q) {
      ShiftedIsAt(front, tail, CRLFCRLF, q);
    }
    FindIs(tail, CRLFCRLF, |rest|);
  }

  /** Right after a CRLF the text neither ends nor goes on with another CRLF. */
  lemma FirstPieceNotEmpty(text: bytes, p: nat)
    requires Find(text + CRLFCRLF, CRLFCRLF) == Some(|text|)
    requires p + 2 <= |text| && text[p..p + 2] == CRLF
    ensures Split(text[p + 2..], CRLF)[0] != []
  {
    var rest := text[p + 2..];
    if rest == [] || IsAt(rest, CRLF, 0) {
      CrlfTwice(text, p);
    }
  }

  lemma CrlfTwice(text: bytes, p: nat)
    requires p + 2 <= |text| && text[p..p + 2] == CRLF
    requires text[p + 2..] == [] || IsAt(text[p + 2..], CRLF, 0)
    ensures IsAt(text + CRLFCRLF, CRLFCRLF, p)
  {
    var whole, rest := text + CRLFCRLF, text[p + 2..];
    if rest != [] {
      AtElement(rest, CRLF, 0, 0);
      AtElement(rest, CRLF, 0, 1);
    }
    AtElement(text, CRLF, p, 0);
    AtElement(text, CRLF, p, 1);
    assert whole[p..p + 4] == CRLFCRLF;
  }

  /** On the blocks that the reader produces, the parser's `continue` for empty lines is dead. */
  lemma NoEmptyFieldLines(block: bytes)
    requires IsHeaderBlock(block)
    ensures forall line | line in LinesOf(block)[1..] :: line != []
  {
    var n := |block| - 4;
    assert IsAt(block, CRLFCRLF, n);
    assert block == block[..n] + block[n..n + 4];
    NoEmptyPieces(Text(block));
    InTail(LinesOf(block));
  }

  lemma InTail(lines: seq<bytes>)
    requires lines != [] && forall i | 1 <= i < |lines| :: lines[i] != []
    ensures forall line | line in lines[1..] :: line != []
  {
    assert forall i | 0 <= i < |lines| - 1 :: lines[1..][i] == lines[i + 1];
  }

  // ------------------------------------------------------------------ header fields

  predicate IsFieldLine(line: bytes) {
    && line != [] && line[0] != SP && line[0] != HTAB
    && SplitOnce(line, COLON).Some?
    && var (name, raw) := SplitOnce(line, COLON).value; IsToken(name) && 0 !in raw
  }

  function NameOf(line: bytes): bytes
    requires IsFieldLine(line)
  {
    Lower(SplitOnce(line, COLON).value.0)
  }

  function ValueOf(line: bytes): bytes
    requires IsFieldLine(line)
  {
    Trim(SplitOnce(line, COLON).value.1)
  }

  /** The values of the fields with the given lower-case name, in order. */
  function Values(lines: seq<bytes>, name: bytes): (values: seq<bytes>)
    ensures |values| <= |lines|
  {
    if lines == [] then []
    else
      var last := lines[|lines| - 1];
      Values(lines[..|lines| - 1], name) + if IsFieldLine(last) && NameOf(last) == name then [ValueOf(last)] else []
  }

  /** Every name maps to the value of its last field, and there are no other entries. */
  ghost predicate LastWins(headers: map<bytes, bytes>, lines: seq<bytes>) {
    forall name :: LastWinsFor(headers, lines, name)
  }

  predicate LastWinsFor(headers: map<bytes, bytes>, lines: seq<bytes>, name: bytes) {
    var values := Values(lines, name);
    if values == [] then name !in headers else name in headers && headers[name] == values[|values| - 1]
  }

  /** The counters and flags agree with the lines. */
  predicate CountsAre(f: Fields, lines: seq<bytes>) {
    && f.count == |lines|
    && f.hosts == |Values(lines, HOST)|
    && f.contentLengths == Values(lines, CONTENT_LENGTH)
    && (f.sawTransferEncoding <==> Values(lines, TRANSFER_ENCODING) != [])
    && (f.sawExpect <==> Values(lines, EXPECT) != [])
  }

  lemma ValuesAppend(front: seq<bytes>, line: bytes, name: bytes)
    requires IsFieldLine(line)
    ensures Values(front + [line], name) ==
      if NameOf(line) == name then Values(front, name) + [ValueOf(line)] else Values(front, name)
  {
    assert (front + [line])[..|front|] == front;
  }

  lemma CountsOneMore(f: Fields, front: seq<bytes>, line: bytes)
    requires CountsAre(f, front) && IsFieldLine(line)
    ensures CountsAre(Record(f, NameOf(line), ValueOf(line)), front + [line])
  {
    ValuesAppend(front, line, HOST);
    ValuesAppend(front, line, CONTENT_LENGTH);
    ValuesAppend(front, line, TRANSFER_ENCODING);
    ValuesAppend(front, line, EXPECT);
  }

  lemma LastWinsOneMore(headers: map<bytes, bytes>, front: seq<bytes>, line: bytes)
    requires LastWins(headers, front) && IsFieldLine(line)
    ensures LastWins(headers[NameOf(line) := ValueOf(line)], front + [line])
  {
    var more := headers[NameOf(line) := ValueOf(line)];
    forall name ensures LastWinsFor(more, front + [line], name) {
      assert LastWinsFor(headers, front, name);
      ValuesAppend(front, line, name);
    }
  }

  lemma {:induction false} FieldsAccept(lines: seq<bytes>, maxCount: nat, head: bool)
    requires forall line | line in lines :: line != []
    ensures var r := AddFields(lines, maxCount, head);
      && (r.Ok? <==> (forall line | line in lines :: IsFieldLine(line)) && |lines| <= maxCount)
      && (r.Ok? ==> CountsAre(r.value, lines) && LastWins(r.value.headers, lines))
    decreases |lines|
  {
    if lines != [] {
      var front, last := lines[..|lines| - 1], lines[|lines| - 1];
      assert forall line | line in front :: line in lines;
      FieldsAccept(front, maxCount, head);
      assert last in lines && lines == front + [last];
      var r := AddFields(front, maxCount, head);
      if r.Ok? && IsFieldLine(last) {
        CountsOneMore(r.value, front, last);
        LastWinsOneMore(r.value.headers, front, last);
      }
    }
  }

  // ------------------------------------------------------------------ acceptance

  predicate IsRequestLine(line: bytes) {
    var parts := Split(line, [SP]);
    && |parts| == 3 && parts[2] == HTTP11 && IsUppercaseMethod(parts[0])
    && parts[1] != [] && parts[1][0] == 47 && 0 !in parts[1]
  }

  predicate IsLength(value: bytes, maxBodyBytes: nat) {
    value != [] && AllDigits(value) && DecimalValue(value) < U64 && DecimalValue(value) <= maxBodyBytes
  }

  /** The conditions on a request head, in no particular order. */
  ghost predicate IsAcceptable(block: bytes, limits: Limits)
    requires |block| >= 4
  {
    var lines := LinesOf(block);
    var fields := lines[1..];
    && 0 !in Text(block) && IsUtf8(Text(block))
    && IsRequestLine(lines[0])
    && (forall line | line in fields :: IsFieldLine(line))
    && |fields| <= limits.maxHeaderCount
    && |Values(fields, HOST)| == 1
    && Values(fields, TRANSFER_ENCODING) == []
    && Values(fields, EXPECT) == []
    && LengthsOk(Values(fields, CONTENT_LENGTH), limits.maxBodyBytes)
  }

  /** No Content-Length, or one that is a number within the limit. */
  predicate LengthsOk(lengths: seq<bytes>, maxBodyBytes: nat) {
    lengths == [] || (|lengths| == 1 && IsLength(lengths[0], maxBodyBytes))
  }

  function DeclaredLength(fields: seq<bytes>): nat {
    var lengths := Values(fields, CONTENT_LENGTH);
    if lengths != [] && AllDigits(lengths[0]) then DecimalValue(lengths[0]) else 0
  }

  lemma LengthAccept(f: Fields, fields: seq<bytes>, maxBodyBytes: nat, head: bool)
    requires CountsAre(f, fields)
    ensures var r := BodyLength(f, maxBodyBytes, head);
      && (r.Ok? <==>
            && |Values(fields, HOST)| == 1 && Values(fields, TRANSFER_ENCODING) == []
            && Values(fields, EXPECT) == [] && LengthsOk(Values(fields, CONTENT_LENGTH), maxBodyBytes))
      && (r.Ok? ==> r.value == DeclaredLength(fields))
  {
  }

  /** The parser accepts a block exactly when all conditions hold; what it then returns are the
      method and target of the request line, the last value of every field, and the declared body
      length, which is 0 without a Content-Length field. */
  lemma HeadAcceptedIff(block: bytes, limits: Limits)
    requires IsHeaderBlock(block)
    ensures HeadOf(block, limits).Ok? <==> IsAcceptable(block, limits)
    ensures HeadOf(block, limits).Ok? ==>
      var h := HeadOf(block, limits).value;
      var lines := LinesOf(block);
      var parts := Split(lines[0], [SP]);
      && |parts| == 3 && h.verb == parts[0] && h.target == parts[1]
      && LastWins(h.headers, lines[1..])
      && h.bodyLen == DeclaredLength(lines[1..])
  {
    NoEmptyFieldLines(block);
    var lines := LinesOf(block);
    var line := RequestLine(lines[0]);
    assert line.Ok? <==> IsRequestLine(lines[0]);
    if line.Ok? {
      var head := line.value.0 == HEAD;
      FieldsAccept(lines[1..], limits.maxHeaderCount, head);
      var r := AddFields(lines[1..], limits.maxHeaderCount, head);
      if r.Ok? {
        LengthAccept(r.value, lines[1..], limits.maxBodyBytes, head);
      }
    }
  }

  /** The stream has a header block within the limit. */
  predicate Fits(stream: bytes, limits: Limits) {
    Find(stream, CRLFCRLF).Some? && Find(stream, CRLFCRLF).value + 4 <= limits.maxHeaderBytes
  }

  function BlockOf(stream: bytes, limits: Limits): (block: bytes)
    requires Fits(stream, limits)
    ensures |block| >= 4
  {
    var n := Find(stream, CRLFCRLF).value + 4;
    assert n <= |stream|;
    stream[..n]
  }

  lemma BlockIsRead(stream: bytes, ending: Ending, limits: Limits)
    requires Fits(stream, limits)
    ensures var block := BlockOf(stream, limits);
      && IsHeaderBlock(block)
      && HttpOutcome(stream, ending, limits) == RequestOutcome(block, stream[|block|..], ending, limits)
  {
    ReaderGivesHeaderBlocks(stream, ending, limits.maxHeaderBytes);
  }

  /** The stream starts with an acceptable head within the limit, followed by the declared number
      of body bytes. */
  ghost predicate IsCompleteRequest(stream: bytes, limits: Limits) {
    && Fits(stream, limits)
    && var block := BlockOf(stream, limits);
       IsAcceptable(block, limits) && |stream| - |block| >= DeclaredLength(LinesOf(block)[1..])
  }

  /** The declared number of bytes after the head. */
  ghost function BodyOf(stream: bytes, limits: Limits): bytes
    requires IsCompleteRequest(stream, limits)
  {
    var block := BlockOf(stream, limits);
    stream[|block|..][..DeclaredLength(LinesOf(block)[1..])]
  }

  /** A request is received exactly from such a stream, however it ends; its body is the declared
      number of bytes after the head. */
  lemma RequestReceivedIff(stream: bytes, ending: Ending, limits: Limits)
    ensures var r := HttpOutcome(stream, ending, limits);
      && (r.Ok? && r.value.Received? <==> IsCompleteRequest(stream, limits))
      && (r.Ok? && r.value.Received? ==> r.value.request.body == BodyOf(stream, limits))
  {
    if Fits(stream, limits) {
      var block := BlockOf(stream, limits);
      BlockIsRead(stream, ending, limits);
      BlockReceivedIff(block, stream[|block|..], ending, limits);
    } else {
      NothingReceived(stream, ending, limits);
    }
  }

  lemma NothingReceived(stream: bytes, ending: Ending, limits: Limits)
    requires !Fits(stream, limits)
    ensures var r := HttpOutcome(stream, ending, limits); !(r.Ok? && r.value.Received?)
  {
    var o := HeaderOutcome(stream, ending, limits.maxHeaderBytes);
    assert o.Err? || o.value.None?;
  }

  lemma BlockReceivedIff(block: bytes, rest: bytes, ending: Ending, limits: Limits)
    requires IsHeaderBlock(block)
    ensures var r := RequestOutcome(block, rest, ending, limits);
      var need := DeclaredLength(LinesOf(block)[1..]);
      && (r.Ok? && r.value.Received? <==> IsAcceptable(block, limits) && |rest| >= need)
      && (r.Ok? ==> r.value.Received? && r.value.request.body == rest[..need])
  {
    HeadAcceptedIff(block, limits);
  }
}
