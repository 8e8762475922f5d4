/** Exactly when `src/https_serve.rs` fails a request, and with which status. The conditions are on the
    bytes of the stream and on how it ends. */
module HttpFailures {
  import opened Prelude
  import opened HttpText
  import opened HttpReader
  import opened HttpRequest
  import opened HttpAcceptance

  // ------------------------------------------------------------------ the conditions

  /** The stream ends too early: in the header block, or in the body after an acceptable head. */
  ghost predicate IsShort(stream: bytes, limits: Limits) {
    if Fits(stream, limits) then
      var block := BlockOf(stream, limits);
      IsAcceptable(block, limits) && |stream| - |block| < DeclaredLength(LinesOf(block)[1..])
    else |stream| <= limits.maxHeaderBytes
  }

  predicate IsClean(block: bytes)
    requires |block| >= 4
  {
    0 !in Text(block) && IsUtf8(Text(block))
  }

  /** A bad field line that is read before there are too many. */
  ghost predicate HasBadField(fields: seq<bytes>, max: nat) {
    exists j :: 0 <= j < |fields| && j <= max && !IsFieldLine(fields[j])
  }

  ghost predicate HasTooManyFields(fields: seq<bytes>, max: nat) {
    |fields| > max && forall j | 0 <= j <= max :: IsFieldLine(fields[j])
  }

  ghost predicate FieldsOk(fields: seq<bytes>, max: nat) {
    (forall line | line in fields :: IsFieldLine(line)) && |fields| <= max
  }

  predicate IsU64(value: bytes) { value != [] && AllDigits(value) && DecimalValue(value) < U64 }

  /** Well-formed fields that are rejected with this status. */
  predicate FramingFails(fields: seq<bytes>, maxBodyBytes: nat, status: nat) {
    var hosts, lengths := Values(fields, HOST), Values(fields, CONTENT_LENGTH);
    var encoded, expects := Values(fields, TRANSFER_ENCODING) != [], Values(fields, EXPECT) != [];
    match status
    case 501 => |hosts| == 1 && encoded && lengths == []
    case 417 => |hosts| == 1 && !encoded && expects
    case 413 =>
      && |hosts| == 1 && !encoded && !expects
      && |lengths| == 1 && IsU64(lengths[0]) && DecimalValue(lengths[0]) > maxBodyBytes
    case 400 =>
      || |hosts| != 1
      || (encoded && lengths != [])
      || (!encoded && !expects && (|lengths| > 1 || (|lengths| == 1 && !IsU64(lengths[0]))))
    case _ => false
  }

  /** A request line of another HTTP version. */
  predicate HasOtherVersion(line: bytes) {
    var parts := Split(line, [SP]);
    |parts| == 3 && parts[2] != HTTP11 && HTTP_SLASH <= parts[2]
  }

  /** Request lines that are rejected with this status. */
  predicate LineFails(line: bytes, status: nat) {
    if HasOtherVersion(line) then status == 505 else status == 400 && !IsRequestLine(line)
  }

  /** Header blocks that are rejected with this status. */
  ghost predicate HeadFails(block: bytes, limits: Limits, status: nat)
    requires |block| >= 4
  {
    var line, fields := LinesOf(block)[0], LinesOf(block)[1..];
    if !IsClean(block) then status == 400
    else if !IsRequestLine(line) then LineFails(line, status)
    else
      || (status == 400 && HasBadField(fields, limits.maxHeaderCount))
      || (status == 431 && HasTooManyFields(fields, limits.maxHeaderCount))
      || (FieldsOk(fields, limits.maxHeaderCount) && FramingFails(fields, limits.maxBodyBytes, status))
  }

  predicate EndsCleanly(ending: Ending) { ending.Eof? || ending.UnexpectedEof? }

  /** Streams that are answered with this failure status. */
  ghost predicate StreamFails(stream: bytes, ending: Ending, limits: Limits, status: nat) {
    || (status == 431 && !Fits(stream, limits) && |stream| > limits.maxHeaderBytes)
    || (status == 408 && ending.TimedOut? && IsShort(stream, limits))
    || (status == 400 && EndsCleanly(ending) && stream != [] && IsShort(stream, limits))
    || (Fits(stream, limits) && HeadFails(BlockOf(stream, limits), limits, status))
  }

  // ------------------------------------------------------------------ the checks of a head

  predicate HasStatus<T>(r: Result<T>, status: nat) {
    r.Err? && r.error.Protocol? && r.error.failure.status == status
  }

  /** Every failure has a text, and is marked as the answer to a HEAD request if `head`. */
  predicate IsMarked<T>(r: Result<T>, head: bool) {
    r.Err? ==> r.error.Protocol? && r.error.failure.body != "" && r.error.failure.head == head
  }

  lemma {:induction false} FieldsCases(fields: seq<bytes>, max: nat, head: bool)
    requires forall line | line in fields :: line != []
    ensures var r := AddFields(fields, max, head);
      && IsMarked(r, head)
      && (HasStatus(r, 400) <==> HasBadField(fields, max))
      && (HasStatus(r, 431) <==> HasTooManyFields(fields, max))
      && (r.Err? ==> HasStatus(r, 400) || HasStatus(r, 431))
    decreases |fields|
  {
    if fields != [] {
      var n := |fields| - 1;
      assert forall line | line in fields[..n] :: line in fields;
      FieldsCases(fields[..n], max, head);
      assert fields[n] in fields;
      if AddFields(fields[..n], max, head).Ok? {
        FieldsAccept(fields[..n], max, head);
        GoodSoFar(fields, max);
      } else {
        BadAlready(fields, n, max);
      }
    }
  }

  lemma GoodSoFar(fields: seq<bytes>, max: nat)
    requires fields != [] && FieldsOk(fields[..|fields| - 1], max)
    ensures HasBadField(fields, max) <==> !IsFieldLine(fields[|fields| - 1])
    ensures HasTooManyFields(fields, max) <==> IsFieldLine(fields[|fields| - 1]) && |fields| > max
  {
    var n := |fields| - 1;
    assert forall j | 0 <= j < n :: fields[..n][j] == fields[j] && fields[j] in fields[..n];
  }

  lemma BadAlready(fields: seq<bytes>, n: nat, max: nat)
    requires n <= |fields| && (HasBadField(fields[..n], max) || HasTooManyFields(fields[..n], max))
    ensures HasBadField(fields, max) <==> HasBadField(fields[..n], max)
    ensures HasTooManyFields(fields, max) <==> HasTooManyFields(fields[..n], max)
  {
    var front := fields[..n];
    assert forall j | 0 <= j < n :: front[j] == fields[j];
    if HasBadField(front, max) {
      var j :| 0 <= j < |front| && j <= max && !IsFieldLine(front[j]);
      assert !IsFieldLine(fields[j]);
    } else {
      assert forall j | 0 <= j <= max :: IsFieldLine(fields[j]) by {
        assert forall j | 0 <= j <= max :: IsFieldLine(front[j]);
      }
    }
  }

  lemma FramingCases(f: Fields, fields: seq<bytes>, maxBodyBytes: nat, head: bool, status: nat)
    requires CountsAre(f, fields)
    ensures var r := BodyLength(f, maxBodyBytes, head);
      && (HasStatus(r, status) <==> FramingFails(fields, maxBodyBytes, status))
      && (r.Err? ==> r.error.Protocol? && r.error.failure.body != "")
      && (r.Err? ==> (r.error.failure.head <==> head && !LengthIsMalformed(fields)))
  {
  }

  /** The only thing wrong with the fields is the one Content-Length, which is no 64-bit number. */
  predicate LengthIsMalformed(fields: seq<bytes>) {
    && |Values(fields, HOST)| == 1 && Values(fields, TRANSFER_ENCODING) == [] && Values(fields, EXPECT) == []
    && |Values(fields, CONTENT_LENGTH)| == 1 && !IsU64(Values(fields, CONTENT_LENGTH)[0])
  }

  lemma LineCases(line: bytes, status: nat)
    ensures var r := RequestLine(line);
      && (r.Ok? <==> IsRequestLine(line))
      && (HasStatus(r, status) <==> LineFails(line, status))
      && (r.Err? ==> r.error.Protocol? && r.error.failure.body != "")
      && (r.Err? ==> (r.error.failure.head <==>
            var parts := Split(line, [SP]); |parts| == 3 && parts[2] == HTTP11 && parts[0] == HEAD))
  {
    assert IsUppercaseMethod(HEAD) by { assert HEAD[0] == 72 && HEAD[1] == 69 && HEAD[2] == 65 && HEAD[3] == 68; }
  }

  /** The failure of a head is marked as the answer to a HEAD request. */
  ghost predicate MarksHead(block: bytes, limits: Limits)
    requires |block| >= 4
  {
    var line, fields := LinesOf(block)[0], LinesOf(block)[1..];
    var parts := Split(line, [SP]);
    && IsClean(block) && |parts| == 3 && parts[0] == HEAD && parts[2] == HTTP11
    && (IsRequestLine(line) && FieldsOk(fields, limits.maxHeaderCount) ==> !LengthIsMalformed(fields))
  }

  lemma HeadCases(block: bytes, limits: Limits, status: nat)
    requires IsHeaderBlock(block)
    ensures var r := HeadOf(block, limits);
      && (HasStatus(r, status) <==> HeadFails(block, limits, status))
      && (r.Err? ==> r.error.Protocol? && r.error.failure.body != "")
      && (r.Err? ==> (r.error.failure.head <==> MarksHead(block, limits)))
  {
    NoEmptyFieldLines(block);
    var line, fields := LinesOf(block)[0], LinesOf(block)[1..];
    LineCases(line, status);
    if IsClean(block) && IsRequestLine(line) {
      var head := RequestLine(line).value.0 == HEAD;
      FieldsCases(fields, limits.maxHeaderCount, head);
      FieldsAccept(fields, limits.maxHeaderCount, head);
      var r := AddFields(fields, limits.maxHeaderCount, head);
      if r.Ok? {
        FramingCases(r.value, fields, limits.maxBodyBytes, head, status);
      }
    }
  }

  // ------------------------------------------------------------------ the whole request

  lemma RequestCases(block: bytes, rest: bytes, ending: Ending, limits: Limits, status: nat)
    requires IsHeaderBlock(block)
    ensures var r := RequestOutcome(block, rest, ending, limits);
      var short := IsAcceptable(block, limits) && |rest| < DeclaredLength(LinesOf(block)[1..]);
      && (HasStatus(r, status) <==>
            || HeadFails(block, limits, status)
            || (short && status == 408 && ending.TimedOut?)
            || (short && status == 400 && EndsCleanly(ending)))
      && (forall k :: r == Err(Io(k)) <==> short && ending == OtherIo(k))
  {
    HeadCases(block, limits, status);
    HeadAcceptedIff(block, limits);
  }

  lemma NoBlockCases(stream: bytes, ending: Ending, limits: Limits, status: nat)
    requires !Fits(stream, limits)
    ensures var r := HttpOutcome(stream, ending, limits);
      && (HasStatus(r, status) <==> StreamFails(stream, ending, limits, status))
      && (forall k :: r == Err(Io(k)) <==> ending == OtherIo(k) && IsShort(stream, limits))
      && (r == Ok(Closed) <==> stream == [] && EndsCleanly(ending))
  {
    var found := Find(stream, CRLFCRLF);
    if found.Some? {
      assert IsAt(stream, CRLFCRLF, found.value);
    }
  }

  /** For every stream, ending and limits: the exact condition of each failure status, of an I/O error,
      and of a connection that closes without a request. A timeout is one of the endings; it is a 408
      failure exactly when it has the `TimedOut` kind and the stream runs short. */
  lemma FailureCases(stream: bytes, ending: Ending, limits: Limits, status: nat)
    ensures var r := HttpOutcome(stream, ending, limits);
      && (HasStatus(r, status) <==> StreamFails(stream, ending, limits, status))
      && (forall k :: r == Err(Io(k)) <==> ending == OtherIo(k) && IsShort(stream, limits))
      && (r == Ok(Closed) <==> stream == [] && EndsCleanly(ending))
  {
    if Fits(stream, limits) {
      BlockIsRead(stream, ending, limits);
      RequestCases(BlockOf(stream, limits), stream[|BlockOf(stream, limits)|..], ending, limits, status);
    } else {
      NoBlockCases(stream, ending, limits, status);
    }
  }

  /** Nothing else can come out: a request, a close, an I/O error, or one of seven failures. */
  lemma OnlySevenStatuses(stream: bytes, ending: Ending, limits: Limits)
    ensures var r := HttpOutcome(stream, ending, limits);
      r.Err? && r.error.Protocol? ==> r.error.failure.status in {400, 408, 413, 417, 431, 501, 505}
  {
    var r := HttpOutcome(stream, ending, limits);
    if r.Err? && r.error.Protocol? {
      FailureCases(stream, ending, limits, r.error.failure.status);
    }
  }
}
