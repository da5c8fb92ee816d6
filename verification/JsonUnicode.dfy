/** Unicode escapes: UTF-16 code units in, UTF-8 bytes out. */
module JsonUnicode {
  import opened Decimal
  import opened JsonText
  import opened JsonParse

  /** A code point that is no surrogate. */
  predicate IsScalar(u: nat)
  {
    u < 0xD800 || 0xE000 <= u < 0x11_0000
  }

  datatype Decoded = Malformed | Scalar(u: nat, rest: string)

  predicate IsTail(c: char)
  {
    0x80 <= c as int < 0xC0
  }

  /** The first character of a UTF-8 byte sequence, by the syntax of section 4 of RFC 3629. */
  function DecodeUtf8(s: string): Decoded
  {
    if s == [] then Malformed
    else
      var b := s[0] as int;
      if b < 0x80 then Scalar(b, s[1..])
      else if 0xC2 <= b < 0xE0 && |s| >= 2 && IsTail(s[1]) then
        Scalar((b - 0xC0) * 0x40 + (s[1] as int - 0x80), s[2..])
      else if 0xE0 <= b < 0xF0 && |s| >= 3 && IsTail(s[1]) && IsTail(s[2])
              && (b == 0xE0 ==> s[1] as int >= 0xA0) && (b == 0xED ==> (s[1] as int) < 0xA0) then
        Scalar(((b - 0xE0) * 0x40 + (s[1] as int - 0x80)) * 0x40 + (s[2] as int - 0x80), s[3..])
      else if 0xF0 <= b < 0xF5 && |s| >= 4 && IsTail(s[1]) && IsTail(s[2]) && IsTail(s[3])
              && (b == 0xF0 ==> s[1] as int >= 0x90) && (b == 0xF4 ==> (s[1] as int) < 0x90) then
        Scalar((((b - 0xF0) * 0x40 + (s[1] as int - 0x80)) * 0x40 + (s[2] as int - 0x80)) * 0x40
               + (s[3] as int - 0x80), s[4..])
      else Malformed
  }

  /** The bytes written for a scalar value decode to it and to nothing else. */
  lemma TranscodeDecodes(u: nat, rest: string)
    requires IsScalar(u)
    ensures DecodeUtf8(Transcode(u) + rest) == Scalar(u, rest)
  {
    var t := Transcode(u);
    var s := t + rest;
    assert s[|t|..] == rest;
    assert forall i :: 0 <= i < |t| ==> s[i] == t[i];
  }

  /** UTF-8 is prefix-free and has one spelling: only those bytes decode to u. */
  lemma OnlyTranscode(s: string, u: nat, rest: string)
    requires DecodeUtf8(s) == Scalar(u, rest)
    ensures IsScalar(u) && s == Transcode(u) + rest
  {
    if s[0] as int < 0x80 {
      assert s == [s[0]] + rest;
    } else if s[0] as int < 0xE0 {
      TwoBytes(s);
    } else if s[0] as int < 0xF0 {
      ThreeBytes(s);
    } else {
      FourBytes(s);
    }
  }

  lemma TwoBytes(s: string)
    requires |s| >= 2 && 0xC2 <= s[0] as int < 0xE0 && IsTail(s[1])
    ensures Transcode((s[0] as int - 0xC0) * 0x40 + (s[1] as int - 0x80)) == [s[0], s[1]]
    ensures s == [s[0], s[1]] + s[2..]
  {
    Base64(s[0] as int - 0xC0, s[1] as int - 0x80);
  }

  lemma ThreeBytes(s: string)
    requires |s| >= 3 && 0xE0 <= s[0] as int < 0xF0 && IsTail(s[1]) && IsTail(s[2])
    requires s[0] as int == 0xE0 ==> s[1] as int >= 0xA0
    ensures Transcode(((s[0] as int - 0xE0) * 0x40 + (s[1] as int - 0x80)) * 0x40 + (s[2] as int - 0x80)) ==
            [s[0], s[1], s[2]]
    ensures s == [s[0], s[1], s[2]] + s[3..]
  {
    var b := s[0] as int - 0xE0;
    Base64(b, s[1] as int - 0x80);
    Base64(b * 0x40 + (s[1] as int - 0x80), s[2] as int - 0x80);
  }

  lemma FourBytes(s: string)
    requires |s| >= 4 && 0xF0 <= s[0] as int < 0xF5 && IsTail(s[1]) && IsTail(s[2]) && IsTail(s[3])
    requires (s[0] as int == 0xF0 ==> s[1] as int >= 0x90) && (s[0] as int == 0xF4 ==> (s[1] as int) < 0x90)
    ensures Transcode((((s[0] as int - 0xF0) * 0x40 + (s[1] as int - 0x80)) * 0x40 + (s[2] as int - 0x80)) * 0x40
                      + (s[3] as int - 0x80)) == [s[0], s[1], s[2], s[3]]
    ensures s == [s[0], s[1], s[2], s[3]] + s[4..]
  {
    var b := s[0] as int - 0xF0;
    Base64(b, s[1] as int - 0x80);
    Base64(b * 0x40 + (s[1] as int - 0x80), s[2] as int - 0x80);
    Base64((b * 0x40 + (s[1] as int - 0x80)) * 0x40 + (s[2] as int - 0x80), s[3] as int - 0x80);
  }

  lemma Base64(x: nat, t: nat)
    requires t < 64
    ensures (x * 64 + t) / 64 == x && (x * 64 + t) % 64 == t
  {
  }

  /** The character string s is decoded, character by character, to the scalar values us. */
  ghost predicate DecodesTo(s: string, us: seq<nat>)
    decreases us
  {
    if us == [] then s == []
    else
      var d := DecodeUtf8(s);
      d.Scalar? && d.u == us[0] && DecodesTo(d.rest, us[1..])
  }

  /** A hex digit, in either case. */
  ghost predicate HexDigit(c: char, d: nat)
  {
    d < 16 && (c == "0123456789abcdef"[d] || c == "0123456789ABCDEF"[d])
  }

  ghost predicate FourDigits(h: string, d0: nat, d1: nat, d2: nat, d3: nat)
  {
    |h| == 4 && HexDigit(h[0], d0) && HexDigit(h[1], d1) && HexDigit(h[2], d2) && HexDigit(h[3], d3)
  }

  /** Four hex digits that denote a code unit. */
  ghost predicate HexUnit(h: string, unit: nat)
  {
    exists d0: nat, d1: nat, d2: nat, d3: nat ::
      FourDigits(h, d0, d1, d2, d3) && unit == ((d0 * 16 + d1) * 16 + d2) * 16 + d3
  }

  /** The comparisons of parse_hex4 accept exactly the hex digits, and give their values. */
  lemma HexDigitValue(c: char, d: nat)
    requires HexDigit(c, d)
    ensures IsHex(c) && HexValue(c) == d
  {
    if d < 10 {
      assert "0123456789"[d] == "0123456789abcdef"[d] == "0123456789ABCDEF"[d];
    }
  }

  lemma OnlyHexDigits(c: char)
    requires IsHex(c)
    ensures HexDigit(c, HexValue(c))
  {
    var d := HexValue(c);
    assert "0123456789abcdef"[d] == c || "0123456789ABCDEF"[d] == c;
  }

  /** Four hex digits as parse_hex4 reads them. */
  predicate ReadsUnit(h: string, unit: nat)
  {
    |h| == 4 && IsHex(h[0]) && IsHex(h[1]) && IsHex(h[2]) && IsHex(h[3]) && Hex4(h) == unit
  }

  lemma HexUnitIs(h: string, unit: nat)
    requires HexUnit(h, unit)
    ensures ReadsUnit(h, unit)
  {
    var d0: nat, d1: nat, d2: nat, d3: nat :| FourDigits(h, d0, d1, d2, d3)
      && unit == ((d0 * 16 + d1) * 16 + d2) * 16 + d3;
    HexDigitValue(h[0], d0);
    HexDigitValue(h[1], d1);
    HexDigitValue(h[2], d2);
    HexDigitValue(h[3], d3);
  }

  /** The \u escape of one scalar value: one code unit, or a surrogate pair (section 7 of RFC 8259). */
  ghost predicate IsEscapeOf(e: string, u: nat)
  {
    if u < 0x1_0000 then |e| == 6 && e[..2] == "\\u" && HexUnit(e[2..], u)
    else
      && |e| == 12
      && e[..2] == "\\u" && HexUnit(e[2..6], 0xD800 + (u - 0x1_0000) / 0x400)
      && e[6..8] == "\\u" && HexUnit(e[8..], 0xDC00 + (u - 0x1_0000) % 0x400)
  }

  ghost predicate IsUnit(e: string, unit: nat)
  {
    |e| == 6 && e[..2] == "\\u" && HexUnit(e[2..], unit)
  }

  /** A \u with its digits, at the head of a text. */
  lemma UnitAtHead(e: string, unit: nat, rest: string)
    requires |e| == 6 && e[..2] == "\\u" && ReadsUnit(e[2..], unit)
    ensures var p := e + rest;
      At(p, 0) == '\\' && At(p, 1) == 'u' && Hex4(Drop(p, 2)) == unit && Drop(p, 6) == rest
  {
    var p := e + rest;
    assert p[0] == e[..2][0] && p[1] == e[..2][1];
    var h := e[2..];
    assert Drop(p, 2) == h + rest;
    assert forall i :: 0 <= i < 4 ==> (h + rest)[i] == h[i];
  }

  lemma PairValue(u: nat)
    requires 0x1_0000 <= u < 0x11_0000
    ensures var hi, lo := 0xD800 + (u - 0x1_0000) / 0x400, 0xDC00 + (u - 0x1_0000) % 0x400;
      && 0xD800 <= hi <= 0xDBFF && 0xDC00 <= lo <= 0xDFFF
      && 0x1_0000 + hi % 0x400 * 0x400 + lo % 0x400 == u
  {
    var a, b := (u - 0x1_0000) / 0x400, (u - 0x1_0000) % 0x400;
    assert (0xD800 + a) % 0x400 == a && (0xDC00 + b) % 0x400 == b;
  }

  /** Two units in a row. */
  lemma PairAtHead(e: string, hi: nat, lo: nat, rest: string)
    requires |e| == 12 && e[..2] == "\\u" && ReadsUnit(e[2..6], hi) && e[6..8] == "\\u" && ReadsUnit(e[8..], lo)
    ensures var p := e + rest;
      && At(p, 0) == '\\' && At(p, 1) == 'u' && Hex4(Drop(p, 2)) == hi
      && At(p, 6) == '\\' && At(p, 7) == 'u' && Hex4(Drop(p, 8)) == lo && Drop(p, 12) == rest
  {
    var p, first, second := e + rest, e[..6], e[6..];
    assert first[..2] == e[..2] && first[2..] == e[2..6];
    assert second[..2] == e[6..8] && second[2..] == e[8..];
    assert p == first + (second + rest);
    UnitAtHead(first, hi, second + rest);
    UnitAtHead(second, lo, rest);
    assert Drop(p, 6) == second + rest;
    assert Drop(p, 8) == Drop(second + rest, 2);
  }

  /** The parser sees the code units of u. */
  ghost predicate ReadsEscape(p: string, u: nat, length: nat)
  {
    && At(p, 0) == '\\' && At(p, 1) == 'u'
    && if u < 0x1_0000 then Hex4(Drop(p, 2)) == u && length == 6
       else
         && Hex4(Drop(p, 2)) == 0xD800 + (u - 0x1_0000) / 0x400
         && At(p, 6) == '\\' && At(p, 7) == 'u'
         && Hex4(Drop(p, 8)) == 0xDC00 + (u - 0x1_0000) % 0x400 && length == 12
  }

  lemma EscapeIsRead(e: string, u: nat, rest: string)
    requires IsEscapeOf(e, u)
    ensures ReadsEscape(e + rest, u, |e|) && Drop(e + rest, |e|) == rest
  {
    if u < 0x1_0000 {
      HexUnitIs(e[2..], u);
      UnitAtHead(e, u, rest);
    } else {
      var hi, lo := 0xD800 + (u - 0x1_0000) / 0x400, 0xDC00 + (u - 0x1_0000) % 0x400;
      HexUnitIs(e[2..6], hi);
      HexUnitIs(e[8..], lo);
      PairAtHead(e, hi, lo, rest);
    }
  }

  lemma ReadEscape(p: string, u: nat, length: nat)
    requires IsScalar(u) && u != 0 && ReadsEscape(p, u, length)
    ensures UnicodeEscape(p) == (Transcode(u), length)
  {
    if u >= 0x1_0000 {
      PairValue(u);
    }
  }

  lemma OneEscape(e: string, u: nat, rest: string)
    requires IsScalar(u) && u != 0 && IsEscapeOf(e, u)
    ensures UnicodeEscape(e + rest) == (Transcode(u), |e|)
    ensures Drop(e + rest, |e|) == rest
    ensures At(e + rest, 0) == '\\' && At(e + rest, 1) == 'u'
  {
    EscapeIsRead(e, u, rest);
    ReadEscape(e + rest, u, |e|);
  }

  ghost function Concat(es: seq<string>): string
  {
    if es == [] then "" else es[0] + Concat(es[1..])
  }

  lemma EscapeInFront(e: string, u: nat, tail: string)
    requires IsScalar(u) && u != 0 && IsEscapeOf(e, u)
    ensures Unescape(e + tail) == (Transcode(u) + Unescape(tail).0, Unescape(tail).1)
  {
    OneEscape(e, u, tail);
  }

  /** A string literal made of \u escapes of scalar values other than NUL is decoded to their UTF-8 form. */
  lemma {:induction false} EscapesDecode(es: seq<string>, us: seq<nat>, rest: string)
    requires |es| == |us|
    requires forall i :: 0 <= i < |us| ==> IsScalar(us[i]) && us[i] != 0 && IsEscapeOf(es[i], us[i])
    ensures Unescape(Concat(es) + "\"" + rest).1 == "\"" + rest
    ensures DecodesTo(Unescape(Concat(es) + "\"" + rest).0, us)
    decreases es
  {
    if es == [] {
      assert Concat(es) + "\"" + rest == "\"" + rest;
    } else {
      var tail := Concat(es[1..]) + "\"" + rest;
      assert Concat(es) + "\"" + rest == es[0] + tail;
      EscapeInFront(es[0], us[0], tail);
      EscapesDecode(es[1..], us[1..], rest);
      TranscodeDecodes(us[0], Unescape(tail).0);
    }
  }

  // Literals of any pieces.

  /** What a short escape stands for (section 7 of RFC 8259). */
  const SHORT: map<char, char> := map['\"' := '\"', '\\' := '\\', '/' := '/', 'b' := '\U{8}', 'f' := '\U{C}',
                                      'n' := '\U{A}', 'r' := '\U{D}', 't' := '\U{9}']

  /**
   A character that stands for itself, a short escape, a \u escape of a scalar value, the \u escape of a unit
   that begins none, or a high surrogate before the wrong unit.
   */
  datatype Piece =
    | Itself(c: char)
    | Short(mark: char)
    | Unicode(e: string, u: nat)
    | Lone(e: string, unit: nat)
    | Unpaired(e: string, hi: nat, unit: nat)

  ghost predicate WellFormed(x: Piece)
  {
    match x
    case Itself(c) => c != '\"' && c != '\\' && c != NUL
    case Short(mark) => mark != 'u' && mark != NUL
    case Unicode(e, u) => IsScalar(u) && u != 0 && IsEscapeOf(e, u)
    case Lone(e, unit) => (unit == 0 || 0xDC00 <= unit < 0xE000) && IsUnit(e, unit)
    case Unpaired(e, hi, unit) =>
      0xD800 <= hi < 0xDC00 && !(0xDC00 <= unit < 0xE000) && |e| == 12 && IsUnit(e[..6], hi) && IsUnit(e[6..], unit)
  }

  ghost function Written(x: Piece): string
  {
    match x
    case Itself(c) => [c]
    case Short(mark) => ['\\', mark]
    case Unicode(e, _) => e
    case Lone(e, _) => e
    case Unpaired(e, _, _) => e
  }

  /** The bytes that a piece stands for: those of RFC 3629, and none for what is no scalar value or NUL. */
  ghost predicate Means(x: Piece, bytes: string)
  {
    match x
    case Itself(c) => bytes == [c]
    case Short(mark) => bytes == [if mark in SHORT then SHORT[mark] else mark]
    case Unicode(_, u) => DecodeUtf8(bytes) == Scalar(u, "")
    case Lone(_, _) => bytes == ""
    case Unpaired(_, _, _) => bytes == ""
  }

  /** Read before the tail, w yields the bytes. */
  ghost predicate InFront(w: string, bytes: string, tail: string)
  {
    Unescape(w + tail) == (bytes + Unescape(tail).0, Unescape(tail).1)
  }

  lemma ItselfInFront(c: char, tail: string)
    requires c != '\"' && c != '\\' && c != NUL
    ensures InFront([c], [c], tail)
  {
    var p := [c] + tail;
    assert p[0] == c && Drop(p, 1) == tail;
  }

  lemma ShortInFront(mark: char, tail: string)
    requires mark != 'u' && mark != NUL
    ensures InFront(['\\', mark], [if mark in SHORT then SHORT[mark] else mark], tail)
  {
    var p := ['\\', mark] + tail;
    assert p[0] == '\\' && At(p, 1) == mark && Drop(p, 2) == tail;
  }

  lemma LoneInFront(e: string, unit: nat, tail: string)
    requires (unit == 0 || 0xDC00 <= unit < 0xE000) && IsUnit(e, unit)
    ensures InFront(e, "", tail)
  {
    HexUnitIs(e[2..], unit);
    UnitAtHead(e, unit, tail);
    assert "" + Unescape(tail).0 == Unescape(tail).0;
  }

  lemma UnitsAtHead(e: string, hi: nat, unit: nat, tail: string)
    requires |e| == 12 && IsUnit(e[..6], hi) && IsUnit(e[6..], unit)
    ensures var p := e + tail;
      && At(p, 0) == '\\' && At(p, 1) == 'u' && Hex4(Drop(p, 2)) == hi
      && At(p, 6) == '\\' && At(p, 7) == 'u' && Hex4(Drop(p, 8)) == unit && Drop(p, 12) == tail
  {
    assert e[..6][..2] == e[..2] && e[..6][2..] == e[2..6];
    assert e[6..][..2] == e[6..8] && e[6..][2..] == e[8..];
    HexUnitIs(e[2..6], hi);
    HexUnitIs(e[8..], unit);
    PairAtHead(e, hi, unit, tail);
  }

  lemma UnpairedInFront(e: string, hi: nat, unit: nat, tail: string)
    requires 0xD800 <= hi < 0xDC00 && !(0xDC00 <= unit < 0xE000) && |e| == 12
    requires IsUnit(e[..6], hi) && IsUnit(e[6..], unit)
    ensures InFront(e, "", tail)
  {
    UnitsAtHead(e, hi, unit, tail);
    assert UnicodeEscape(e + tail) == ("", 12);
    assert "" + Unescape(tail).0 == Unescape(tail).0;
  }

  lemma UnicodeInFront(e: string, u: nat, tail: string)
    requires IsScalar(u) && u != 0 && IsEscapeOf(e, u)
    ensures InFront(e, Transcode(u), tail) && DecodeUtf8(Transcode(u)) == Scalar(u, "")
  {
    EscapeInFront(e, u, tail);
    TranscodeDecodes(u, "");
    assert Transcode(u) + "" == Transcode(u);
  }

  lemma PieceInFront(x: Piece, tail: string) returns (bytes: string)
    requires WellFormed(x)
    ensures Means(x, bytes) && InFront(Written(x), bytes, tail)
  {
    match x
    case Itself(c) =>
      bytes := [c];
      ItselfInFront(c, tail);
    case Short(mark) =>
      bytes := [if mark in SHORT then SHORT[mark] else mark];
      ShortInFront(mark, tail);
    case Unicode(e, u) =>
      bytes := Transcode(u);
      UnicodeInFront(e, u, tail);
    case Lone(e, unit) =>
      bytes := "";
      LoneInFront(e, unit, tail);
    case Unpaired(e, hi, unit) =>
      bytes := "";
      UnpairedInFront(e, hi, unit, tail);
  }

  ghost function AllWritten(xs: seq<Piece>): string
  {
    if xs == [] then "" else Written(xs[0]) + AllWritten(xs[1..])
  }

  ghost predicate AllMean(xs: seq<Piece>, s: string)
    decreases |xs|
  {
    if xs == [] then s == ""
    else exists k: nat :: k <= |s| && Means(xs[0], s[..k]) && AllMean(xs[1..], s[k..])
  }

  lemma MeansInFront(xs: seq<Piece>, bytes: string, more: string)
    requires xs != [] && Means(xs[0], bytes) && AllMean(xs[1..], more)
    ensures AllMean(xs, bytes + more)
  {
    var s := bytes + more;
    assert s[..|bytes|] == bytes && s[|bytes|..] == more;
  }

  /** A literal of such pieces reads as what these stand for, one after the other, up to its quote. */
  lemma {:induction false} LiteralMeans(xs: seq<Piece>, rest: string)
    requires forall i :: 0 <= i < |xs| ==> WellFormed(xs[i])
    ensures ParseString("\"" + (AllWritten(xs) + ("\"" + rest))).Ok?
    ensures var r := ParseString("\"" + (AllWritten(xs) + ("\"" + rest)));
      r.rest == rest && AllMean(xs, r.value)
  {
    var body := AllWritten(xs) + ("\"" + rest);
    BodyMeans(xs, rest);
    assert ("\"" + body)[1..] == body && ("\"" + rest)[1..] == rest;
  }

  lemma {:induction false} BodyMeans(xs: seq<Piece>, rest: string)
    requires forall i :: 0 <= i < |xs| ==> WellFormed(xs[i])
    ensures var r := Unescape(AllWritten(xs) + ("\"" + rest));
      r.1 == "\"" + rest && AllMean(xs, r.0)
    decreases |xs|
  {
    if xs == [] {
      assert "" + ("\"" + rest) == "\"" + rest;
    } else {
      var tail := AllWritten(xs[1..]) + ("\"" + rest);
      assert AllWritten(xs) + ("\"" + rest) == Written(xs[0]) + tail;
      BodyMeans(xs[1..], rest);
      var bytes := PieceInFront(xs[0], tail);
      MeansInFront(xs, bytes, Unescape(tail).0);
    }
  }

  /** The length the first pass of parse_string counts. */
  function Counted(p: string): nat
    decreases |p|
  {
    if Head(p) == '\"' || Head(p) == NUL then 0
    else 1 + Counted(Drop(p, if p[0] == '\\' then 2 else 1))
  }

  /** Every \u of the literal has four hex digits, and no backslash ends the text. */
  ghost predicate WellEscaped(p: string)
    decreases |p|
  {
    if Head(p) == '\"' || Head(p) == NUL then true
    else if p[0] != '\\' then WellEscaped(p[1..])
    else if At(p, 1) == 'u' then
      && IsHex(At(p, 2)) && IsHex(At(p, 3)) && IsHex(At(p, 4)) && IsHex(At(p, 5))
      && WellEscaped(Drop(p, 6))
    else At(p, 1) != NUL && WellEscaped(Drop(p, 2))
  }

  lemma CountedHex(p: string, k: nat)
    requires IsHex(At(p, k))
    ensures Counted(Drop(p, k)) == 1 + Counted(Drop(p, k + 1))
  {
    assert Drop(p, k)[1..] == Drop(p, k + 1);
  }

  lemma CountedUnicode(p: string)
    requires Head(p) == '\\' && At(p, 1) == 'u'
    requires IsHex(At(p, 2)) && IsHex(At(p, 3)) && IsHex(At(p, 4)) && IsHex(At(p, 5))
    ensures Counted(p) == 5 + Counted(Drop(p, 6))
  {
    CountedHex(p, 2);
    CountedHex(p, 3);
    CountedHex(p, 4);
    CountedHex(p, 5);
  }

  /** Two escapes in a row, of which the second may complete a surrogate pair. */
  lemma CountedPair(p: string)
    requires WellEscaped(p) && Head(p) == '\\' && At(p, 1) == 'u' && UnicodeEscape(p).1 == 12
    ensures WellEscaped(Drop(p, 12)) && Counted(p) == 10 + Counted(Drop(p, 12))
  {
    CountedUnicode(p);
    var q := Drop(p, 6);
    assert Drop(q, 6) == Drop(p, 12);
    assert At(q, 0) == At(p, 6) && At(q, 1) == At(p, 7);
    CountedUnicode(q);
  }

  /** What one escape writes is paid for by what it counts. */
  lemma UnicodeFits(p: string)
    requires WellEscaped(p) && Head(p) == '\\' && At(p, 1) == 'u'
    ensures var rest := Drop(p, UnicodeEscape(p).1);
      WellEscaped(rest) && |rest| < |p| && |UnicodeEscape(p).0| + Counted(rest) <= Counted(p)
  {
    if UnicodeEscape(p).1 == 12 {
      CountedPair(p);
    } else {
      CountedUnicode(p);
    }
  }

  /** The second pass writes no more bytes than the first pass counted. */
  lemma {:induction false} WritesFit(p: string)
    requires WellEscaped(p)
    ensures |Unescape(p).0| <= Counted(p)
    decreases |p|
  {
    if Head(p) != '\"' && Head(p) != NUL {
      if p[0] != '\\' {
        WritesFit(Drop(p, 1));
      } else if At(p, 1) == 'u' {
        UnicodeFits(p);
        WritesFit(Drop(p, UnicodeEscape(p).1));
      } else {
        WritesFit(Drop(p, 2));
      }
    }
  }
}
