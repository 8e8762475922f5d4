/** Byte-level text helpers of the HTTP and MCP framing code: searching, splitting, trimming,
    UTF-8 and decimal numbers. Text is a sequence of bytes. */
module HttpText {
  import opened Prelude

  const CR: byte := 13
  const LF: byte := 10
  const SP: byte := 32
  const HTAB: byte := 9
  const COLON: byte := 58
  const CRLF: bytes := [13, 10]
  const CRLFCRLF: bytes := [13, 10, 13, 10]

  /** The bytes of an ASCII literal. */
  function Ascii(s: string): (b: bytes)
    requires forall i | 0 <= i < |s| :: s[i] < 128 as char
    ensures |b| == |s| && forall i | 0 <= i < |s| :: b[i] == s[i] as int
  {
    seq(|s|, i requires 0 <= i < |s| => s[i] as int)
  }

  /** The lower-case name of the length field, in HTTP heads and MCP headers. */
  const CONTENT_LENGTH: bytes := Ascii("content-length")

  // ------------------------------------------------------------------ searching

  predicate IsAt(s: bytes, pattern: bytes, p: nat) { p + |pattern| <= |s| && s[p..p + |pattern|] == pattern }

  /** The first position of `pattern` at or after `from`. */
  function FindFrom(s: bytes, pattern: bytes, from: nat): (r: Option<nat>)
    ensures r.None? ==> forall p: nat | from <= p :: !IsAt(s, pattern, p)
    ensures r.Some? ==>
      && from <= r.value && IsAt(s, pattern, r.value)
      && forall p: nat | from <= p < r.value :: !IsAt(s, pattern, p)
    decreases |s| - from
  {
    if from + |pattern| > |s| then None
    else if IsAt(s, pattern, from) then Some(from)
    else if from == |s| then None
    else FindFrom(s, pattern, from + 1)
  }

  function Find(s: bytes, pattern: bytes): Option<nat> { FindFrom(s, pattern, 0) }

  /** Finding is determined by the first match. */
  lemma FindIs(s: bytes, pattern: bytes, p: nat)
    requires IsAt(s, pattern, p) && forall q: nat | q < p :: !IsAt(s, pattern, q)
    ensures Find(s, pattern) == Some(p)
  {
    FindFromIs(s, pattern, 0, p);
  }

  lemma {:induction false} FindFromIs(s: bytes, pattern: bytes, from: nat, p: nat)
    requires from <= p && IsAt(s, pattern, p) && forall q: nat | from <= q < p :: !IsAt(s, pattern, q)
    ensures FindFrom(s, pattern, from) == Some(p)
    decreases p - from
  {
    if from < p {
      FindFromIs(s, pattern, from + 1, p);
    }
  }

  lemma AtElement(s: bytes, pattern: bytes, p: nat, k: nat)
    requires IsAt(s, pattern, p) && k < |pattern|
    ensures s[p + k] == pattern[k]
  {
    assert s[p..p + |pattern|][k] == s[p + k];
  }

  lemma IsAtPrefix(s: bytes, t: bytes, pattern: bytes, p: nat)
    requires p + |pattern| <= |s|
    ensures IsAt(s, pattern, p) <==> IsAt(s + t, pattern, p)
  {
    assert (s + t)[p..p + |pattern|] == s[p..p + |pattern|];
  }

  /** A match in a prefix is the first match of the whole. */
  lemma FindInPrefix(s: bytes, t: bytes, pattern: bytes)
    ensures Find(s, pattern).Some? ==> Find(s + t, pattern) == Find(s, pattern)
    ensures Find(s, pattern).None? && Find(s + t, pattern).Some? ==> Find(s + t, pattern).value + |pattern| > |s|
  {
    var r := Find(s, pattern);
    if r.Some? {
      IsAtPrefix(s, t, pattern, r.value);
      forall q: nat | q < r.value ensures !IsAt(s + t, pattern, q) {
        IsAtPrefix(s, t, pattern, q);
      }
      FindIs(s + t, pattern, r.value);
    } else if Find(s + t, pattern).Some? {
      var p := Find(s + t, pattern).value;
      if p + |pattern| <= |s| { IsAtPrefix(s, t, pattern, p); }
    }
  }

  // ------------------------------------------------------------------ splitting

  /** The pieces between the occurrences of a non-empty separator. */
  function Split(s: bytes, sep: bytes): (pieces: seq<bytes>)
    requires sep != []
    ensures |pieces| >= 1
    decreases |s|
  {
    match Find(s, sep)
    case None => [s]
    case Some(p) => [s[..p]] + Split(s[p + |sep|..], sep)
  }

  /** The parts before and after the first separator byte. */
  function SplitOnce(s: bytes, sep: byte): Option<(bytes, bytes)> {
    match Find(s, [sep])
    case None => None
    case Some(p) => Some((s[..p], s[p + 1..]))
  }

  lemma SplitOnceAt(name: bytes, sep: byte, rest: bytes)
    requires sep !in name
    ensures SplitOnce(name + [sep] + rest, sep) == Some((name, rest))
  {
    var s := name + [sep] + rest;
    assert s[|name|..|name| + 1] == [sep];
    forall q: nat | q < |name| ensures !IsAt(s, [sep], q) {
      assert s[q..q + 1] == [name[q]];
    }
    FindIs(s, [sep], |name|);
    assert s[..|name|] == name && s[|name| + 1..] == rest;
  }

  /** Lines, each followed by CRLF. */
  function Lines(lines: seq<bytes>): bytes {
    if lines == [] then [] else lines[0] + CRLF + Lines(lines[1..])
  }

  predicate IsLine(line: bytes) { line != [] && CR !in line && LF !in line }

  ghost predicate AllLines(lines: seq<bytes>) { forall l | l in lines :: IsLine(l) }

  lemma {:induction false} LinesAppend(a: seq<bytes>, b: seq<bytes>)
    ensures Lines(a + b) == Lines(a) + Lines(b)
    decreases |a|
  {
    if a == [] {
      assert a + b == b;
    } else {
      LinesAppend(a[1..], b);
      assert (a + b)[1..] == a[1..] + b;
    }
  }

  /** A CRLF inside a line or at its start would need a CR or LF in it. */
  lemma NoCrlfInside(line: bytes, rest: bytes, p: nat)
    requires CR !in line && p < |line|
    ensures !IsAt(line + rest, CRLF, p) && !IsAt(line + rest, CRLFCRLF, p)
  {
    var s := line + rest;
    assert s[p] == line[p] && line[p] in line;
    if p + 2 <= |s| { assert s[p..p + 2][0] == s[p]; }
    if p + 4 <= |s| { assert s[p..p + 4][0] == s[p]; }
  }

  lemma FirstCrlf(line: bytes, rest: bytes)
    requires CR !in line
    ensures Find(line + CRLF + rest, CRLF) == Some(|line|)
  {
    var s := line + CRLF + rest;
    assert s == line + (CRLF + rest);
    assert s[|line|..|line| + 2] == CRLF;
    forall q: nat | q < |line| ensures !IsAt(s, CRLF, q) {
      NoCrlfInside(line, CRLF + rest, q);
    }
    FindIs(s, CRLF, |line|);
  }

  /** Splitting the head of a message at CRLF gives its lines back. */
  lemma {:induction false} SplitLines(lines: seq<bytes>, last: bytes)
    requires AllLines(lines) && CR !in last
    ensures Split(Lines(lines) + last, CRLF) == lines + [last]
    decreases |lines|
  {
    var s := Lines(lines) + last;
    if lines == [] {
      forall p: nat ensures !IsAt(last, CRLF, p) {
        if p < |last| {
          NoCrlfInside(last, [], p);
          assert last + [] == last;
        }
      }
      assert s == last;
    } else {
      var line, rest := lines[0], Lines(lines[1..]) + last;
      assert line in lines;
      assert s == line + CRLF + rest;
      FirstCrlf(line, rest);
      assert s[..|line|] == line && s[|line| + 2..] == rest;
      SplitLines(lines[1..], last);
      assert lines == [line] + lines[1..];
    }
  }

  /** No blank line starts inside a line, or between it and a further text that does not start
      with CR. */
  lemma NoBlankLineBefore(line: bytes, tail: bytes, q: nat)
    requires CR !in line && tail != [] && tail[0] != CR && q < |line| + 2
    ensures !IsAt(line + CRLF + tail, CRLFCRLF, q)
  {
    var s := line + CRLF + tail;
    assert q < |line| ==> s[q] == line[q] && line[q] in line;
    if IsAt(s, CRLFCRLF, q) {
      AtElement(s, CRLFCRLF, q, 0);
      AtElement(s, CRLFCRLF, q, 2);
    }
  }

  lemma Associative(a: bytes, b: bytes, c: bytes)
    ensures a + b + c == a + (b + c)
  {
  }

  lemma OneLineIn(lines: seq<bytes>, body: bytes)
    requires |lines| == 1
    ensures Lines(lines) == lines[0] + CRLF
    ensures Lines(lines) + CRLF + body == lines[0] + CRLF + (CRLF + body)
  {
    assert lines[1..] == [];
    assert Lines(lines) == lines[0] + CRLF + [];
    Associative(lines[0] + CRLF, CRLF, body);
  }

  /** The text behind the first of several lines starts with the next line. */
  lemma MoreLinesIn(lines: seq<bytes>, body: bytes)
    requires AllLines(lines) && |lines| > 1
    ensures var tail := Lines(lines[1..]) + CRLF + body;
      Lines(lines) + CRLF + body == lines[0] + CRLF + tail && tail[0] != CRLF[0]
  {
    var line, more := lines[0], Lines(lines[1..]);
    Associative(line + CRLF, more, CRLF);
    Associative(line + CRLF, more + CRLF, body);
    var next := lines[1];
    assert next in lines && next == lines[1..][0];
    assert more == next + CRLF + Lines(lines[1..][1..]);
    assert more[0] == next[0] && next[0] in next;
  }

  /** The blank line after the lines is the first CRLFCRLF. */
  lemma {:induction false} FirstBlankLine(lines: seq<bytes>, body: bytes)
    requires AllLines(lines) && lines != []
    ensures |Lines(lines)| >= 2
    ensures Find(Lines(lines) + CRLF + body, CRLFCRLF) == Some(|Lines(lines)| - 2)
    decreases |lines|
  {
    var line := lines[0];
    assert line in lines;
    if |lines| == 1 {
      OneLineIn(lines, body);
      BlankLineAfter(line, body);
    } else {
      FirstBlankLine(lines[1..], body);
      MoreLinesIn(lines, body);
      BlankLineIn(line, Lines(lines[1..]) + CRLF + body, |Lines(lines[1..])| - 2);
    }
  }

  lemma BlankLineAfter(line: bytes, body: bytes)
    requires CR !in line
    ensures Find(line + CRLF + (CRLF + body), CRLFCRLF) == Some(|line|)
  {
    var s := line + CRLF + (CRLF + body);
    assert s[|line|..|line| + 4] == CRLFCRLF;
    forall q: nat | q < |line| ensures !IsAt(s, CRLFCRLF, q) {
      NoCrlfInside(line, CRLF + (CRLF + body), q);
      assert s == line + (CRLF + (CRLF + body));
    }
    FindIs(s, CRLFCRLF, |line|);
  }

  lemma BlankLineIn(line: bytes, tail: bytes, p: nat)
    requires CR !in line && tail != [] && tail[0] != CR && Find(tail, CRLFCRLF) == Some(p)
    ensures Find(line + CRLF + tail, CRLFCRLF) == Some(|line| + 2 + p)
  {
    var s := line + CRLF + tail;
    assert s == (line + CRLF) + tail;
    forall q: nat | q < |line| + 2 + p ensures !IsAt(s, CRLFCRLF, q) {
      if q < |line| + 2 {
        NoBlankLineBefore(line, tail, q);
      } else {
        ShiftedIsAt(line + CRLF, tail, CRLFCRLF, q - |line| - 2);
      }
    }
    ShiftedIsAt(line + CRLF, tail, CRLFCRLF, p);
    FindIs(s, CRLFCRLF, |line| + 2 + p);
  }

  lemma ShiftedIsAt(front: bytes, tail: bytes, pattern: bytes, p: nat)
    ensures IsAt(front + tail, pattern, |front| + p) <==> IsAt(tail, pattern, p)
  {
    if p + |pattern| <= |tail| {
      assert (front + tail)[|front| + p..|front| + p + |pattern|] == tail[p..p + |pattern|];
    }
  }

  // ------------------------------------------------------------------ trimming and case

  predicate IsAsciiSpace(b: byte) { 9 <= b <= 13 || b == 32 }

  /** The two- and three-byte encodings of white space outside ASCII. */
  predicate IsSpace2(a: byte, b: byte) { a == 0xC2 && (b == 0x85 || b == 0xA0) }

  predicate IsSpace3(a: byte, b: byte, c: byte) {
    || (a == 0xE1 && b == 0x9A && c == 0x80)
    || (a == 0xE2 && b == 0x80 && (0x80 <= c <= 0x8A || c == 0xA8 || c == 0xA9 || c == 0xAF))
    || (a == 0xE2 && b == 0x81 && c == 0x9F)
    || (a == 0xE3 && b == 0x80 && c == 0x80)
  }

  function TrimStart(s: bytes): bytes {
    if |s| >= 1 && IsAsciiSpace(s[0]) then TrimStart(s[1..])
    else if |s| >= 2 && IsSpace2(s[0], s[1]) then TrimStart(s[2..])
    else if |s| >= 3 && IsSpace3(s[0], s[1], s[2]) then TrimStart(s[3..])
    else s
  }

  function TrimEnd(s: bytes): bytes {
    var n := |s|;
    if n >= 1 && IsAsciiSpace(s[n - 1]) then TrimEnd(s[..n - 1])
    else if n >= 2 && IsSpace2(s[n - 2], s[n - 1]) then TrimEnd(s[..n - 2])
    else if n >= 3 && IsSpace3(s[n - 3], s[n - 2], s[n - 1]) then TrimEnd(s[..n - 3])
    else s
  }

  function Trim(s: bytes): bytes { TrimEnd(TrimStart(s)) }

  function LowerByte(b: byte): byte { if 65 <= b <= 90 then b + 32 else b }

  function Lower(s: bytes): (t: bytes)
    ensures |t| == |s| && forall i | 0 <= i < |s| :: t[i] == LowerByte(s[i])
  {
    seq(|s|, i requires 0 <= i < |s| => LowerByte(s[i]))
  }

  /** The two texts differ at most in the case of ASCII letters, `text` having none in upper case. */
  predicate EqualIgnoringCase(name: bytes, text: bytes) {
    |name| == |text| && forall i | 0 <= i < |text| ::
      name[i] == text[i] || (97 <= text[i] <= 122 && name[i] as int == text[i] as int - 32)
  }

  lemma LowerIgnoresCase(name: bytes, text: bytes)
    requires forall i | 0 <= i < |text| :: !(65 <= text[i] <= 90)
    ensures Lower(name) == text <==> EqualIgnoringCase(name, text)
  {
    if EqualIgnoringCase(name, text) {
      assert forall i | 0 <= i < |text| :: Lower(name)[i] == text[i];
    }
    if Lower(name) == text {
      assert forall i | 0 <= i < |text| :: text[i] == Lower(name)[i];
    }
  }

  // ------------------------------------------------------------------ UTF-8 (RFC 3629, section 4)

  predicate IsTail(b: byte) { 0x80 <= b <= 0xBF }

  /** The length of the well-formed character at the front, or 0. */
  function CharLength(s: bytes): (n: nat)
    requires s != []
    ensures n <= |s|
  {
    var a := s[0];
    if a < 0x80 then 1
    else if 0xC2 <= a <= 0xDF && |s| >= 2 && IsTail(s[1]) then 2
    else if 0xE0 <= a <= 0xEF && |s| >= 3 && IsTail(s[1]) && IsTail(s[2])
         && (a == 0xE0 ==> s[1] >= 0xA0) && (a == 0xED ==> s[1] <= 0x9F) then 3
    else if 0xF0 <= a <= 0xF4 && |s| >= 4 && IsTail(s[1]) && IsTail(s[2]) && IsTail(s[3])
         && (a == 0xF0 ==> s[1] >= 0x90) && (a == 0xF4 ==> s[1] <= 0x8F) then 4
    else 0
  }

  predicate IsUtf8(s: bytes)
    decreases |s|
  {
    s == [] || (CharLength(s) > 0 && IsUtf8(s[CharLength(s)..]))
  }

  // ------------------------------------------------------------------ decimal numbers

  predicate IsDigit(b: byte) { 48 <= b <= 57 }

  predicate AllDigits(s: bytes) { forall i | 0 <= i < |s| :: IsDigit(s[i]) }

  function Decimal(n: nat): (s: bytes)
    ensures s != [] && AllDigits(s)
  {
    if n < 10 then [48 + n] else Decimal(n / 10) + [48 + n % 10]
  }

  function DecimalValue(s: bytes): nat
    requires AllDigits(s)
  {
    if s == [] then 0 else 10 * DecimalValue(s[..|s| - 1]) + (s[|s| - 1] - 48)
  }

  /** Reading a printed number gives the number. */
  lemma {:induction false} DecimalRoundTrip(n: nat)
    ensures DecimalValue(Decimal(n)) == n
  {
    if n >= 10 {
      DecimalRoundTrip(n / 10);
      assert Decimal(n)[..|Decimal(n)| - 1] == Decimal(n / 10);
    }
  }

  lemma TrimKeeps(s: bytes)
    requires s != [] && !IsAsciiSpace(s[0]) && s[0] < 0x80 && !IsAsciiSpace(s[|s| - 1]) && s[|s| - 1] < 0x80
    ensures Trim(s) == s && Trim([SP] + s) == s
  {
    TrimStartKeeps(s);
    assert ([SP] + s)[1..] == s;
    TrimEndKeeps(s);
  }

  lemma TrimStartKeeps(s: bytes)
    requires s != [] && !IsAsciiSpace(s[0]) && s[0] < 0x80
    ensures TrimStart(s) == s
  {
  }

  lemma TrimEndKeeps(s: bytes)
    requires s != [] && !IsAsciiSpace(s[|s| - 1]) && s[|s| - 1] < 0x80
    ensures TrimEnd(s) == s
  {
  }

  /** Trimming a printed number, with or without the space a header line puts before it. */
  lemma TrimDecimal(n: nat)
    ensures Trim(Decimal(n)) == Decimal(n) && Trim([SP] + Decimal(n)) == Decimal(n)
  {
    TrimKeeps(Decimal(n));
  }
}
