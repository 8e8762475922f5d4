/** Incremental reading in `src/https_serve.rs`: the header block and the body are functions of the
    bytes of the stream and of how it ends, however the bytes arrive. */
module HttpReader {
  import opened Prelude
  import opened HttpText

  /** How a stream ends after its last byte. */
  datatype Ending = Eof | UnexpectedEof | TimedOut | OtherIo(kind: nat)

  datatype Failure = Failure(status: nat, body: string, head: bool)

  datatype ReadError = Io(kind: nat) | Protocol(failure: Failure)

  function Fail(status: nat, body: string, head: bool): ReadError { Protocol(Failure(status, body, head)) }

  datatype Result<+T> = Ok(value: T) | Err(error: ReadError)

  datatype ReadStep = Interrupted | Chunk(data: bytes) | Ended

  /** A stream with a delivery plan: 0 is an interrupted read, n > 0 delivers at most n bytes. After
      the plan each read delivers as much as fits. Every split of the bytes into reads, with any
      finite number of interruptions, is some plan. */
  class ByteReader {
    const stream: bytes
    const ending: Ending
    var pos: nat
    var plan: seq<nat>

    ghost predicate Valid() reads this { pos <= |stream| }

    /** The bytes not yet delivered. */
    ghost function Rest(): bytes
      reads this
      requires Valid()
    {
      stream[pos..]
    }

    constructor (stream: bytes, ending: Ending, plan: seq<nat>)
      ensures Valid() && Rest() == stream && this.stream == stream && this.ending == ending
    {
      this.stream, this.ending, this.plan, this.pos := stream, ending, plan, 0;
    }

    /** One read into a buffer of `limit` bytes. */
    method Read(limit: nat) returns (step: ReadStep)
      requires Valid() && limit > 0
      modifies this`pos, this`plan
      ensures Valid()
      ensures step.Interrupted? ==> |plan| < |old(plan)| && Rest() == old(Rest())
      ensures step.Ended? ==> old(Rest()) == [] && Rest() == []
      ensures step.Chunk? ==> 1 <= |step.data| <= limit && step.data + Rest() == old(Rest())
    {
      if plan != [] && plan[0] == 0 {
        plan := plan[1..];
        return Interrupted;
      }
      if pos == |stream| {
        return Ended;
      }
      var n := Min(limit, |stream| - pos);
      if plan != [] {
        n := Min(n, plan[0]);
        plan := plan[1..];
      }
      step := Chunk(stream[pos..pos + n]);
      pos := pos + n;
    }
  }

  /** What a read at the end of the stream amounts to: no bytes, or an error. */
  function AtEnd(ending: Ending): Result<bytes> {
    match ending
    case Eof => Ok([])
    case UnexpectedEof => Ok([])
    case TimedOut => Err(Fail(408, "request timeout", false))
    case OtherIo(kind) => Err(Io(kind))
  }

  /** A read that retries interruptions: some bytes while there are any, then the ending. */
  method ReadSome(reader: ByteReader, limit: nat) returns (r: Result<bytes>)
    requires reader.Valid() && limit > 0
    modifies reader`pos, reader`plan
    ensures reader.Valid()
    ensures old(reader.Rest()) == [] ==> reader.Rest() == [] && r == AtEnd(reader.ending)
    ensures old(reader.Rest()) != [] ==>
      r.Ok? && 1 <= |r.value| <= limit && r.value + reader.Rest() == old(reader.Rest())
  {
    while true
      invariant reader.Valid() && reader.Rest() == old(reader.Rest())
      decreases |reader.plan|
    {
      var step := reader.Read(limit);
      match step
      case Interrupted => continue;
      case Chunk(data) => return Ok(data);
      case Ended => return AtEnd(reader.ending);
    }
  }

  // ------------------------------------------------------------------ the header block

  /** The length of the header block at the front of a stream, `None` for a stream without a
      request, or the error. */
  function HeaderOutcome(stream: bytes, ending: Ending, max: nat): Result<Option<nat>> {
    match Find(stream, CRLFCRLF)
    case Some(p) => if p + 4 > max then Err(Fail(431, "request headers too large", false)) else Ok(Some(p + 4))
    case None =>
      if |stream| > max then Err(Fail(431, "request headers too large", false))
      else
        match AtEnd(ending)
        case Err(e) => Err(e)
        case Ok(_) => if stream == [] then Ok(None) else Err(Fail(400, "bad request", false))
  }

  lemma OutcomeFound(seen: bytes, rest: bytes, ending: Ending, max: nat)
    requires Find(seen, CRLFCRLF).Some?
    ensures Find(seen + rest, CRLFCRLF) == Find(seen, CRLFCRLF)
    ensures Find(seen, CRLFCRLF).value + 4 > max ==>
      HeaderOutcome(seen + rest, ending, max) == Err(Fail(431, "request headers too large", false))
    ensures Find(seen, CRLFCRLF).value + 4 <= max ==>
      HeaderOutcome(seen + rest, ending, max) == Ok(Some(Find(seen, CRLFCRLF).value + 4))
  {
    FindInPrefix(seen, rest, CRLFCRLF);
  }

  lemma OutcomeTooLong(seen: bytes, rest: bytes, ending: Ending, max: nat)
    requires Find(seen, CRLFCRLF).None? && |seen| > max
    ensures HeaderOutcome(seen + rest, ending, max) == Err(Fail(431, "request headers too large", false))
  {
    FindInPrefix(seen, rest, CRLFCRLF);
  }

  /** Reads up to the blank line. On success `header` ends with it and `rest` holds what was read
      beyond it. */
  method ReadHeaderBlock(reader: ByteReader, max: nat) returns (r: Result<Option<(bytes, bytes)>>)
    requires reader.Valid()
    modifies reader`pos, reader`plan
    ensures reader.Valid()
    ensures match HeaderOutcome(old(reader.Rest()), reader.ending, max)
      case Err(e) => r == Err(e)
      case Ok(None) => r == Ok(None)
      case Ok(Some(n)) =>
        && r.Ok? && r.value.Some? && |r.value.value.0| == n
        && r.value.value.0 + r.value.value.1 + reader.Rest() == old(reader.Rest())
  {
    var buf: bytes := [];
    while true
      invariant reader.Valid() && buf + reader.Rest() == old(reader.Rest())
      decreases |reader.Rest()|
    {
      var found := Find(buf, CRLFCRLF);
      if found.Some? {
        OutcomeFound(buf, reader.Rest(), reader.ending, max);
        var headerLen := found.value + 4;
        if headerLen > max {
          return Err(Fail(431, "request headers too large", false));
        }
        assert buf[..headerLen] + buf[headerLen..] == buf;
        return Ok(Some((buf[..headerLen], buf[headerLen..])));
      }
      if |buf| > max {
        OutcomeTooLong(buf, reader.Rest(), reader.ending, max);
        return Err(Fail(431, "request headers too large", false));
      }
      ghost var before := reader.Rest();
      var chunk := ReadSome(reader, 1024);
      assert before == [] ==> buf + before == buf;
      if chunk.Err? {
        return Err(chunk.error);
      }
      if chunk.value == [] {
        if buf == [] {
          return Ok(None);
        }
        return Err(Fail(400, "bad request", false));
      }
      Associative(buf, chunk.value, reader.Rest());
      buf := buf + chunk.value;
    }
  }

  // ------------------------------------------------------------------ the body

  /** The first `need` bytes, or what the early end of the stream means. */
  function BodyOutcome(stream: bytes, ending: Ending, need: nat): Result<bytes> {
    if |stream| >= need then Ok(stream[..need])
    else
      match AtEnd(ending)
      case Err(e) => Err(e)
      case Ok(_) => Err(Fail(400, "incomplete request body", false))
  }

  /** `rest` are body bytes that came with the header block. */
  method ReadBody(reader: ByteReader, rest: bytes, need: nat) returns (r: Result<bytes>)
    requires reader.Valid()
    modifies reader`pos, reader`plan
    ensures reader.Valid()
    ensures r == BodyOutcome(rest + old(reader.Rest()), reader.ending, need)
  {
    var body := rest[..Min(|rest|, need)];
    ghost var stream := rest + reader.Rest();
    if |rest| >= need { assert stream[..need] == body; }
    while |body| < need
      invariant reader.Valid() && |body| <= need
      invariant |body| < need ==> body + reader.Rest() == stream
      invariant |body| == need ==> |stream| >= need && stream[..need] == body
      decreases need - |body|
    {
      var chunk := ReadSome(reader, Min(need - |body|, 8192));
      if chunk.Err? {
        return Err(chunk.error);
      }
      if chunk.value == [] {
        return Err(Fail(400, "incomplete request body", false));
      }
      Associative(body, chunk.value, reader.Rest());
      body := body + chunk.value;
    }
    return Ok(body);
  }
}
