/** What the reader of `src/agent.rs` makes of messages that other programs print: headers of several
    lines with the length in any of them, and messages without a length. */
module McpHeaders {
  import opened Prelude
  import opened HttpText
  import opened McpFraming
  import Utf8

  // ------------------------------------------------------------------ the length line

  /** The line names the length in any case, and after its first colon comes the number, with white space
      around it and perhaps a plus sign before it. */
  ghost predicate GivesLength(line: bytes, n: nat) { exists p :: GivesLengthAt(line, p, n) }

  predicate GivesLengthAt(line: bytes, colon: nat, n: nat) {
    && colon < |line| && line[colon] == ':' as int && ':' as int !in line[..colon]
    && EqualIgnoringCase(line[..colon], Ascii("content-length")) && IsNumber(Trim(line[colon + 1..]), n)
  }

  predicate IsNumber(text: bytes, n: nat) {
    var digits := if text != [] && text[0] == '+' as int then text[1..] else text;
    && digits != [] && IsDecimal(digits)
    && DecimalValue(digits) == n && n < 0x1_0000_0000_0000_0000
  }

  lemma NumberIsParsed(text: bytes, n: nat)
    ensures IsNumber(text, n) <==> ParseUsize(text) == Some(n)
  {
    var digits := if text != [] && text[0] == '+' as int then text[1..] else text;
    assert IsDecimal(digits) <==> AllDigits(digits);
  }

  predicate IsDecimal(digits: bytes) { forall i | 0 <= i < |digits| :: '0' as int <= digits[i] <= '9' as int }

  lemma LengthNameIsLower()
    ensures CONTENT_LENGTH == Ascii("content-length")
    ensures forall i | 0 <= i < |CONTENT_LENGTH| :: !(65 <= CONTENT_LENGTH[i] <= 90)
  {
  }

  /** The reader takes a length from exactly these lines. */
  lemma LineLengthIff(line: bytes, n: nat)
    ensures LineLength(line) == Some(n) <==> GivesLength(line, n)
  {
    if p :| GivesLengthAt(line, p, n) {
      ColonSplits(line, p, n);
    }
    if LineLength(line) == Some(n) {
      SplitsAtColon(line, n);
    }
  }

  lemma ColonSplits(line: bytes, p: nat, n: nat)
    requires GivesLengthAt(line, p, n)
    ensures LineLength(line) == Some(n)
  {
    LengthNameIsLower();
    var name, value := line[..p], line[p + 1..];
    assert line == name + [COLON] + value;
    SplitOnceAt(name, COLON, value);
    LowerIgnoresCase(name, CONTENT_LENGTH);
    NumberIsParsed(Trim(value), n);
  }

  lemma SplitsAtColon(line: bytes, n: nat)
    requires LineLength(line) == Some(n)
    ensures GivesLength(line, n)
  {
    LengthNameIsLower();
    var p := Find(line, [COLON]).value;
    AtElement(line, [COLON], p, 0);
    NotBefore(line, p);
    LowerIgnoresCase(line[..p], CONTENT_LENGTH);
    NumberIsParsed(Trim(line[p + 1..]), n);
    assert GivesLengthAt(line, p, n);
  }

  lemma NotBefore(line: bytes, p: nat)
    requires Find(line, [COLON]) == Some(p) && p <= |line|
    ensures COLON !in line[..p]
  {
    if COLON in line[..p] {
      var q :| 0 <= q < p && line[..p][q] == COLON;
      assert line[q..q + 1] == [COLON];
      assert IsAt(line, [COLON], q);
    }
  }

  // ------------------------------------------------------------------ a header of several lines

  predicate IsAsciiText(s: bytes) { forall i | 0 <= i < |s| :: s[i] < 0x80 }

  /** A header of such lines with its blank line. */
  function Header(lines: seq<bytes>): bytes { Lines(lines) + CRLF }

  lemma {:induction false} LinesAreAscii(lines: seq<bytes>)
    requires forall l | l in lines :: IsAsciiText(l)
    ensures IsAsciiText(Lines(lines))
    decreases |lines|
  {
    if lines != [] {
      assert lines[0] in lines;
      LinesAreAscii(lines[1..]);
    }
  }

  /** In such a header every LF stands behind a CR. */
  lemma {:induction false} LfAfterCr(lines: seq<bytes>, p: nat)
    requires AllLines(lines) && p < |Header(lines)| && Header(lines)[p] == LF
    ensures p > 0 && Header(lines)[p - 1] == CR
    decreases |lines|
  {
    if lines != [] {
      var line := lines[0];
      assert line in lines;
      assert Header(lines) == line + CRLF + Header(lines[1..]);
      assert forall q | 0 <= q < |line| :: Header(lines)[q] == line[q] && line[q] in line;
      if p >= |line| + 2 {
        LfAfterCr(lines[1..], p - |line| - 2);
      }
    }
  }

  lemma NoEarlyEnd(lines: seq<bytes>, rest: bytes, k: nat)
    requires AllLines(lines) && lines != [] && k < |Header(lines)|
    ensures !EndsHeader((Header(lines) + rest)[..k])
  {
    var head := Header(lines)[..k];
    assert (Header(lines) + rest)[..k] == head;
    FirstBlankLine(lines, []);
    assert Header(lines) + [] == head + Header(lines)[k..];
    FindInPrefix(head, Header(lines)[k..], CRLFCRLF);
    if k >= 4 && head[k - 2..] == LFLF {
      assert head[k - 2..][1] == head[k - 1] && head[k - 2..][0] == head[k - 2];
      LfAfterCr(lines, k - 1);
    }
  }

  lemma HeaderIsRead(lines: seq<bytes>, rest: bytes, broken: bool)
    requires AllLines(lines) && lines != [] && |Header(lines)| <= MAX_HEADER
    ensures HeaderFrom(Header(lines) + rest, broken, 0) == HeaderEnd(|Header(lines)|)
  {
    var data := Header(lines) + rest;
    forall k: nat | k < |Header(lines)| ensures !EndsHeader(data[..k]) {
      NoEarlyEnd(lines, rest, k);
    }
    FirstBlankLine(lines, []);
    assert Header(lines) + [] == Header(lines) == data[..|Header(lines)|];
    HeaderFromReaches(data, broken, 0, |Header(lines)|);
  }

  lemma SplitAtLf(piece: bytes, rest: bytes)
    requires LF !in piece
    ensures Split(piece + [LF] + rest, [LF]) == [piece] + Split(rest, [LF])
  {
    var s := piece + [LF] + rest;
    assert s[|piece|..|piece| + 1] == [LF];
    forall q: nat | q < |piece| ensures !IsAt(s, [LF], q) {
      assert s[q..q + 1] == [piece[q]];
    }
    FindIs(s, [LF], |piece|);
    assert s[..|piece|] == piece && s[|piece| + 1..] == rest;
  }

  lemma FirstLengthStep(line: bytes, more: bytes)
    requires IsLine(line)
    ensures FirstLength(Split(line + CRLF + more, [LF])) ==
      if LineLength(line).Some? then LineLength(line) else FirstLength(Split(more, [LF]))
  {
    assert line + CRLF + more == (line + [CR]) + [LF] + more;
    SplitAtLf(line + [CR], more);
    assert StripCr(line + [CR]) == line;
  }

  lemma {:induction false} FirstLengthFrom(lines: seq<bytes>, k: nat, i: nat)
    requires AllLines(lines) && k <= i < |lines| && LineLength(lines[i]).Some?
    requires forall j | k <= j < i :: LineLength(lines[j]) == None
    ensures FirstLength(Split(Header(lines[k..]), [LF])) == LineLength(lines[i])
    decreases i - k
  {
    assert lines[k] in lines;
    FirstLengthStep(lines[k], Header(lines[k + 1..]));
    HeaderFromLine(lines, k);
    if k < i {
      FirstLengthFrom(lines, k + 1, i);
    }
  }

  lemma HeaderFromLine(lines: seq<bytes>, k: nat)
    requires k < |lines|
    ensures Header(lines[k..]) == lines[k] + CRLF + Header(lines[k + 1..])
  {
    assert lines[k..][1..] == lines[k + 1..];
    Associative(lines[k] + CRLF, Lines(lines[k + 1..]), CRLF);
  }

  lemma LengthIsNamedIn(front: bytes, line: bytes, more: bytes)
    requires LineLength(line).Some?
    ensures Find(Lower(front + line + more), CONTENT_LENGTH).Some?
  {
    var text, p := front + line + more, Find(line, [COLON]).value;
    assert Lower(line[..p]) == CONTENT_LENGTH;
    assert Lower(text)[|front|..|front| + p] == Lower(line[..p]);
    FindSomewhere(Lower(text), CONTENT_LENGTH, |front|);
  }

  lemma LengthIsNamed(lines: seq<bytes>, i: nat)
    requires i < |lines| && LineLength(lines[i]).Some?
    ensures Find(Lower(Header(lines)), CONTENT_LENGTH).Some?
  {
    var front, more := Lines(lines[..i]), CRLF + Lines(lines[i..][1..]) + CRLF;
    assert lines == lines[..i] + lines[i..];
    LinesAppend(lines[..i], lines[i..]);
    assert Header(lines) == front + lines[i] + more;
    LengthIsNamedIn(front, lines[i], more);
  }

  /** A message printed by any program, with a header of ASCII lines of at most 64 KiB in which the first line
      that gives a length gives `n`: reading returns the `n` bytes after the header and consumes exactly
      the message, whatever the other lines say and whatever follows; or it fails, because there are
      fewer bytes or because they are no text. */
  lemma ForeignFrameIsRead(lines: seq<bytes>, i: nat, n: nat, rest: bytes, broken: bool)
    requires AllLines(lines) && (forall l | l in lines :: IsAsciiText(l)) && |Header(lines)| <= 65536
    requires i < |lines| && GivesLength(lines[i], n)
    requires forall j, m: nat | 0 <= j < i :: !GivesLength(lines[j], m)
    ensures ReadOne(Header(lines) + rest, broken) ==
      if n > |rest| then Failed(if broken then ReadFailed else TruncatedBody)
      else if !IsUtf8(rest[..n]) then Failed(BodyNotUtf8)
      else Message(rest[..n], |Header(lines)| + n)
  {
    HeaderIsRead(lines, rest, broken);
    LengthIsRead(lines, i, n);
    ReadInParts(Header(lines), rest, broken);
    LengthCases(n, |Header(lines)|, rest, broken);
  }

  lemma LengthCases(n: nat, size: nat, rest: bytes, broken: bool)
    ensures AfterLength(Some(n), size, rest, broken) ==
      if n > |rest| then Failed(if broken then ReadFailed else TruncatedBody)
      else if !IsUtf8(rest[..n]) then Failed(BodyNotUtf8)
      else Message(rest[..n], size + n)
  {
  }

  /** If no line gives a length although the header names it, reading fails. */
  lemma NoLengthFails(lines: seq<bytes>, rest: bytes, broken: bool)
    requires AllLines(lines) && lines != [] && (forall l | l in lines :: IsAsciiText(l)) && |Header(lines)| <= 65536
    requires forall j, m: nat | 0 <= j < |lines| :: !GivesLength(lines[j], m)
    requires Find(Lower(Header(lines)), CONTENT_LENGTH).Some?
    ensures ReadOne(Header(lines) + rest, broken) == Failed(MissingLength)
  {
    HeaderIsRead(lines, rest, broken);
    LinesAreAscii(lines);
    LossyAscii(Header(lines));
    ReadInParts(Header(lines), rest, broken);
    forall j | 0 <= j < |lines| ensures LineLength(lines[j]) == None {
      if LineLength(lines[j]).Some? {
        LineLengthIff(lines[j], LineLength(lines[j]).value);
      }
    }
    NoLengthFrom(lines, 0);
    assert lines[0..] == lines;
  }

  lemma {:induction false} NoLengthFrom(lines: seq<bytes>, k: nat)
    requires AllLines(lines) && k <= |lines| && forall j | k <= j < |lines| :: LineLength(lines[j]) == None
    ensures FirstLength(Split(Header(lines[k..]), [LF])) == None
    decreases |lines| - k
  {
    if k < |lines| {
      assert lines[k] in lines;
      FirstLengthStep(lines[k], Header(lines[k + 1..]));
      HeaderFromLine(lines, k);
      NoLengthFrom(lines, k + 1);
    } else {
      assert Header(lines[k..]) == [CR] + [LF] + [];
      SplitAtLf([CR], []);
      BlankLineGivesNone();
    }
  }

  lemma BlankLineGivesNone()
    ensures FirstLength([[CR]] + Split([], [LF])) == None
  {
    assert Split([], [LF]) == [[]];
    assert StripCr([CR]) == [] && StripCr([]) == [];
    assert LineLength([]) == None;
    assert ([[CR]] + [[]])[1..] == [[]];
    assert FirstLength([[]]) == FirstLength([[]][1..]);
  }

  /** A header that does not name the length is the message itself, without the white space around it; if it
      is all white space, the input counts as ended. */
  lemma BareMessageIsRead(data: bytes, broken: bool, n: nat, text: seq<Utf8.Scalar>)
    requires HeaderFrom(data, broken, 0) == HeaderEnd(n) && n <= |data| && data[..n] == Utf8.EncodeAll(text)
    requires forall p: nat :: !IsAt(Lower(data[..n]), CONTENT_LENGTH, p)
    ensures ReadOne(data, broken) ==
      if forall c | c in text :: Utf8.IsWhite(c) then EndOfInput
      else Message(Utf8.EncodeAll(Utf8.DropBack(Utf8.DropFront(text))), n)
  {
    Utf8.EncodedIsUtf8(text);
    Utf8.LossyIff(data[..n]);
    Utf8.TrimDrops(text);
    Utf8.TrimIsEmptyIff(text);
    BareHeader(data[..n], data[n..], broken);
  }

  lemma BareHeader(header: bytes, rest: bytes, broken: bool)
    requires Lossy(header) == header && Find(Lower(header), CONTENT_LENGTH).None?
    ensures AfterHeader(header, rest, broken) ==
      if Trim(header) == [] then EndOfInput else Message(Trim(header), |header|)
  {
  }

  lemma ReadInParts(header: bytes, rest: bytes, broken: bool)
    requires HeaderFrom(header + rest, broken, 0) == HeaderEnd(|header|)
    requires Lossy(header) == header && Find(Lower(header), CONTENT_LENGTH).Some?
    ensures ReadOne(header + rest, broken) == AfterLength(FirstLength(Split(header, [LF])), |header|, rest, broken)
  {
    var data := header + rest;
    assert data[..|header|] == header && data[|header|..] == rest;
    NamedLength(header, rest, broken);
  }

  /** Such a header is its own text, names the length and gives it. */
  lemma LengthIsRead(lines: seq<bytes>, i: nat, n: nat)
    requires AllLines(lines) && (forall l | l in lines :: IsAsciiText(l))
    requires i < |lines| && GivesLength(lines[i], n)
    requires forall j, m: nat | 0 <= j < i :: !GivesLength(lines[j], m)
    ensures var header := Header(lines);
      && Lossy(header) == header && Find(Lower(header), CONTENT_LENGTH).Some?
      && FirstLength(Split(header, [LF])) == Some(n)
  {
    FirstGivenLength(lines, i, n);
    LinesAreAscii(lines);
    LossyAscii(Header(lines));
    LengthIsNamed(lines, i);
  }

  lemma FirstGivenLength(lines: seq<bytes>, i: nat, n: nat)
    requires AllLines(lines) && i < |lines| && GivesLength(lines[i], n)
    requires forall j, m: nat | 0 <= j < i :: !GivesLength(lines[j], m)
    ensures LineLength(lines[i]) == Some(n) && FirstLength(Split(Header(lines), [LF])) == Some(n)
  {
    LineLengthIff(lines[i], n);
    forall j | 0 <= j < i ensures LineLength(lines[j]) == None {
      if LineLength(lines[j]).Some? {
        LineLengthIff(lines[j], LineLength(lines[j]).value);
      }
    }
    assert lines[0..] == lines;
    FirstLengthFrom(lines, 0, i);
  }
}
