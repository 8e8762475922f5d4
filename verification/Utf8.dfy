/** The UTF-8 checks of the byte-level text helpers, against the definition of the encoding (RFC 3629,
    section 3) by code points. */
module Utf8 {
  import opened Prelude
  import opened HttpText
  import opened McpFraming

  /** A Unicode scalar value: a code point that is no surrogate. */
  type Scalar = c: int | 0 <= c <= 0x10FFFF && !(0xD800 <= c <= 0xDFFF)

  function Encode(c: Scalar): (s: bytes)
    ensures 1 <= |s| <= 4
  {
    if c < 0x80 then [c]
    else if c < 0x800 then [0xC0 + c / 64, 0x80 + c % 64]
    else if c < 0x10000 then [0xE0 + c / 64 / 64, 0x80 + c / 64 % 64, 0x80 + c % 64]
    else [0xF0 + c / 64 / 64 / 64, 0x80 + c / 64 / 64 % 64, 0x80 + c / 64 % 64, 0x80 + c % 64]
  }

  function EncodeAll(cs: seq<Scalar>): bytes {
    if cs == [] then [] else Encode(cs[0]) + EncodeAll(cs[1..])
  }

  lemma Digits(high: int, low: int)
    requires 0 <= low < 64
    ensures (high * 64 + low) / 64 == high && (high * 64 + low) % 64 == low
  {
  }

  /** A well-formed character encodes a scalar value. */
  lemma CharIsEncoding(s: bytes) returns (c: Scalar)
    requires s != [] && CharLength(s) > 0
    ensures Encode(c) == s[..CharLength(s)]
  {
    var n := CharLength(s);
    if n == 1 {
      c := s[0];
    } else if n == 2 {
      c := Two(s[0], s[1]);
    } else if n == 3 {
      c := Three(s[0], s[1], s[2]);
    } else {
      c := Four(s[0], s[1], s[2], s[3]);
    }
  }

  lemma Two(a: int, b: int) returns (c: Scalar)
    requires 0xC2 <= a <= 0xDF && 0x80 <= b <= 0xBF
    ensures Encode(c) == [a, b]
  {
    c := (a - 0xC0) * 64 + (b - 0x80);
    Digits(a - 0xC0, b - 0x80);
  }

  lemma Three(a: int, b: int, d: int) returns (c: Scalar)
    requires 0xE0 <= a <= 0xEF && 0x80 <= b <= 0xBF && 0x80 <= d <= 0xBF
    requires (a == 0xE0 ==> b >= 0xA0) && (a == 0xED ==> b <= 0x9F)
    ensures Encode(c) == [a, b, d]
  {
    var high := (a - 0xE0) * 64 + (b - 0x80);
    c := high * 64 + (d - 0x80);
    Digits(a - 0xE0, b - 0x80);
    Digits(high, d - 0x80);
  }

  lemma Four(a: int, b: int, d: int, e: int) returns (c: Scalar)
    requires 0xF0 <= a <= 0xF4 && 0x80 <= b <= 0xBF && 0x80 <= d <= 0xBF && 0x80 <= e <= 0xBF
    requires (a == 0xF0 ==> b >= 0x90) && (a == 0xF4 ==> b <= 0x8F)
    ensures Encode(c) == [a, b, d, e]
  {
    var top := (a - 0xF0) * 64 + (b - 0x80);
    var high := top * 64 + (d - 0x80);
    c := high * 64 + (e - 0x80);
    Digits(a - 0xF0, b - 0x80);
    Digits(top, d - 0x80);
    Digits(high, e - 0x80);
  }

  /** The bytes of an encoded scalar value are those of a well-formed character. */
  lemma EncodingIsChar(c: Scalar)
    ensures var s := Encode(c);
      match |s|
      case 1 => s[0] < 0x80
      case 2 => 0xC2 <= s[0] <= 0xDF && IsTail(s[1])
      case 3 => 0xE0 <= s[0] <= 0xEF && IsTail(s[1]) && IsTail(s[2])
                && (s[0] == 0xE0 ==> s[1] >= 0xA0) && (s[0] == 0xED ==> s[1] <= 0x9F)
      case _ => 0xF0 <= s[0] <= 0xF4 && IsTail(s[1]) && IsTail(s[2]) && IsTail(s[3])
                && (s[0] == 0xF0 ==> s[1] >= 0x90) && (s[0] == 0xF4 ==> s[1] <= 0x8F)
  {
  }

  lemma EncodedChar(c: Scalar, rest: bytes)
    ensures CharLength(Encode(c) + rest) == |Encode(c)|
  {
    EncodingIsChar(c);
    var s := Encode(c) + rest;
    assert forall i | 0 <= i < |Encode(c)| :: s[i] == Encode(c)[i];
  }

  /** A text passes the check exactly when it encodes some scalar values. */
  lemma {:induction false} Utf8Iff(s: bytes)
    ensures IsUtf8(s) <==> IsEncoding(s)
  {
    if IsUtf8(s) {
      Utf8Decodes(s);
    }
    if cs :| EncodeAll(cs) == s {
      EncodedIsUtf8(cs);
    }
  }

  ghost predicate IsEncoding(s: bytes) { exists cs :: EncodeAll(cs) == s }

  lemma {:induction false} Utf8Decodes(s: bytes)
    requires IsUtf8(s)
    ensures IsEncoding(s)
    decreases |s|
  {
    if s == [] {
      assert EncodeAll([]) == s;
    } else {
      var n := CharLength(s);
      Utf8Decodes(s[n..]);
      var cs :| EncodeAll(cs) == s[n..];
      var c := CharIsEncoding(s);
      var all := [c] + cs;
      assert all[1..] == cs && s == s[..n] + s[n..];
      assert EncodeAll(all) == s;
    }
  }

  lemma {:induction false} EncodedIsUtf8(cs: seq<Scalar>)
    ensures IsUtf8(EncodeAll(cs))
    decreases |cs|
  {
    if cs != [] {
      var first, rest := Encode(cs[0]), EncodeAll(cs[1..]);
      EncodedChar(cs[0], rest);
      EncodedIsUtf8(cs[1..]);
      assert (first + rest)[|first|..] == rest;
    }
  }

  // ------------------------------------------------------------------ lossy decoding

  lemma CharAtFront(s: bytes, rest: bytes)
    requires s != [] && CharLength(s) > 0
    ensures CharLength(s[..CharLength(s)] + rest) == CharLength(s)
  {
    var c := CharIsEncoding(s);
    EncodedChar(c, rest);
  }

  lemma FrontIsUtf8(front: bytes, rest: bytes)
    requires front != [] && CharLength(front + rest) == |front| && IsUtf8(rest)
    ensures IsUtf8(front + rest)
  {
    assert (front + rest)[|front|..] == rest;
  }

  lemma {:induction false} LossyIsUtf8(s: bytes)
    ensures IsUtf8(Lossy(s))
    decreases |s|
  {
    if s != [] {
      var n := CharLength(s);
      if n > 0 {
        LossyIsUtf8(s[n..]);
        CharAtFront(s, Lossy(s[n..]));
        FrontIsUtf8(s[..n], Lossy(s[n..]));
      } else {
        var rest := Lossy(s[BadLength(s)..]);
        LossyIsUtf8(s[BadLength(s)..]);
        FrontIsUtf8([0xEF, 0xBF, 0xBD], rest);
      }
    }
  }

  lemma {:induction false} LossyKeeps(s: bytes)
    requires IsUtf8(s)
    ensures Lossy(s) == s
    decreases |s|
  {
    if s != [] {
      LossyKeeps(s[CharLength(s)..]);
      assert s == s[..CharLength(s)] + s[CharLength(s)..];
    }
  }

  /** Lossy decoding gives text, and keeps exactly what is text already. */
  lemma LossyIff(s: bytes)
    ensures IsUtf8(Lossy(s)) && (Lossy(s) == s <==> IsUtf8(s))
  {
    LossyIsUtf8(s);
    if IsUtf8(s) {
      LossyKeeps(s);
    }
  }

  /** What is replaced by one U+FFFD is a single byte or the start of a character, as long as possible. */
  lemma BadPieceIsMaximal(s: bytes)
    requires s != [] && CharLength(s) == 0
    ensures var n := BadLength(s);
      && (n > 1 ==> StartsChar(s[..n]))
      && forall m | n < m <= |s| :: !StartsChar(s[..m])
  {
    var n := BadLength(s);
    if n > 1 {
      if s[0] < 0xF0 {
        var c := Three(s[0], s[1], 0x80);
        assert s[..n] <= Encode(c);
      } else {
        var c := Four(s[0], s[1], if n == 3 then s[2] else 0x80, 0x80);
        assert s[..n] <= Encode(c);
      }
    }
    forall m | n < m <= |s| ensures !StartsChar(s[..m]) {
      if c :| s[..m] <= Encode(c) {
        NotLonger(s, m, c);
      }
    }
  }

  lemma BadPieceIsReplaced(s: bytes)
    requires s != [] && CharLength(s) == 0
    ensures Lossy(s) == Encode(0xFFFD) + Lossy(s[BadLength(s)..])
  {
  }

  /** The bytes are the front of an encoded scalar value. */
  ghost predicate StartsChar(s: bytes) { exists c :: s <= Encode(c) }

  lemma NotLonger(s: bytes, m: nat, c: Scalar)
    requires s != [] && CharLength(s) == 0 && 1 < m <= |s| && s[..m] <= Encode(c)
    ensures m <= BadLength(s)
  {
    EncodingIsChar(c);
    assert forall i | 0 <= i < m :: s[i] == Encode(c)[i];
  }

  // ------------------------------------------------------------------ white space

  /** The property White_Space of Unicode. */
  predicate IsWhite(c: int) {
    || 0x09 <= c <= 0x0D || c in {0x20, 0x85, 0xA0, 0x1680}
    || 0x2000 <= c <= 0x200A || c in {0x2028, 0x2029, 0x202F, 0x205F, 0x3000}
  }

  function DropFront(cs: seq<Scalar>): seq<Scalar> { if cs != [] && IsWhite(cs[0]) then DropFront(cs[1..]) else cs }

  function DropBack(cs: seq<Scalar>): seq<Scalar> {
    if cs != [] && IsWhite(cs[|cs| - 1]) then DropBack(cs[..|cs| - 1]) else cs
  }

  /** `Trim` takes an encoded character for white space exactly when it is. */
  lemma WhiteEncodings(c: Scalar)
    ensures var s := Encode(c);
      && (|s| == 1 ==> (IsAsciiSpace(s[0]) <==> IsWhite(c)))
      && (|s| == 2 ==> (IsSpace2(s[0], s[1]) <==> IsWhite(c)))
      && (|s| == 3 ==> (IsSpace3(s[0], s[1], s[2]) <==> IsWhite(c)))
      && (|s| == 4 ==> !IsWhite(c))
  {
  }

  lemma TrimStartOnce(c: Scalar, rest: bytes)
    ensures TrimStart(Encode(c) + rest) == if IsWhite(c) then TrimStart(rest) else Encode(c) + rest
  {
    WhiteEncodings(c);
    EncodingIsChar(c);
    var s, n := Encode(c) + rest, |Encode(c)|;
    assert forall i | 0 <= i < n :: s[i] == Encode(c)[i];
    assert s[n..] == rest;
  }

  lemma {:induction false} TrimStartDrops(cs: seq<Scalar>)
    ensures TrimStart(EncodeAll(cs)) == EncodeAll(DropFront(cs))
    decreases |cs|
  {
    if cs != [] {
      TrimStartOnce(cs[0], EncodeAll(cs[1..]));
      TrimStartDrops(cs[1..]);
    }
  }

  lemma TrimEndOnce(front: bytes, c: Scalar)
    ensures TrimEnd(front + Encode(c)) == if IsWhite(c) then TrimEnd(front) else front + Encode(c)
  {
    WhiteEncodings(c);
    EncodingIsChar(c);
    var s, k, n := front + Encode(c), |front|, |Encode(c)|;
    assert forall i | 0 <= i < n :: s[k + i] == Encode(c)[i];
    assert s[..k] == front && |s| == k + n;
  }

  lemma {:induction false} EncodeAllAppend(cs: seq<Scalar>, c: Scalar)
    ensures EncodeAll(cs + [c]) == EncodeAll(cs) + Encode(c)
    decreases |cs|
  {
    if cs == [] {
      assert EncodeAll([c]) == Encode(c) + EncodeAll([]);
    } else {
      EncodeAllAppend(cs[1..], c);
      assert (cs + [c])[1..] == cs[1..] + [c];
      Associative(Encode(cs[0]), EncodeAll(cs[1..]), Encode(c));
    }
  }

  lemma {:induction false} TrimEndDrops(cs: seq<Scalar>)
    ensures TrimEnd(EncodeAll(cs)) == EncodeAll(DropBack(cs))
    decreases |cs|
  {
    if cs != [] {
      var front, c := cs[..|cs| - 1], cs[|cs| - 1];
      assert cs == front + [c];
      EncodeAllAppend(front, c);
      TrimEndOnce(EncodeAll(front), c);
      TrimEndDrops(front);
    }
  }

  /** Trimming a text takes exactly the white space off its two ends. */
  lemma TrimDrops(cs: seq<Scalar>)
    ensures Trim(EncodeAll(cs)) == EncodeAll(DropBack(DropFront(cs)))
  {
    TrimStartDrops(cs);
    TrimEndDrops(DropFront(cs));
  }

  lemma {:induction false} DropFrontIsEmptyIff(cs: seq<Scalar>)
    ensures DropFront(cs) == [] <==> forall c | c in cs :: IsWhite(c)
    ensures DropFront(cs) != [] ==> !IsWhite(DropFront(cs)[0])
    decreases |cs|
  {
    if cs != [] && IsWhite(cs[0]) {
      DropFrontIsEmptyIff(cs[1..]);
    }
  }

  lemma {:induction false} DropBackKeepsFirst(cs: seq<Scalar>)
    requires cs != [] && !IsWhite(cs[0])
    ensures DropBack(cs) != []
    decreases |cs|
  {
    if IsWhite(cs[|cs| - 1]) {
      DropBackKeepsFirst(cs[..|cs| - 1]);
    }
  }

  /** Nothing is left of a text exactly when it is all white space. */
  lemma TrimIsEmptyIff(cs: seq<Scalar>)
    ensures Trim(EncodeAll(cs)) == [] <==> forall c | c in cs :: IsWhite(c)
  {
    TrimDrops(cs);
    DropFrontIsEmptyIff(cs);
    if DropFront(cs) != [] {
      DropBackKeepsFirst(DropFront(cs));
    }
  }
}
