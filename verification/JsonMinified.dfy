/** A text that parses still parses to the same value once it is minified. */
module JsonMinified {
  import opened Decimal
  import opened JsonText
  import opened JsonParse
  import opened JsonRoundTrip
  import opened JsonMinify
  import opened JsonUnicode

  /** Every string literal of the text has well-formed escapes only. */
  ghost predicate LiteralsWell(p: string)
    decreases |p|
  {
    if Head(p) == NUL then true
    else
      && (p[0] == '\"' ==> WellEscaped(p[1..]))
      && (Step(p).0 <= |p| ==> LiteralsWell(p[Step(p).0..]))
  }

  /** A text without NUL that the minifier gets to the end of, with well-formed escapes. */
  ghost predicate Good(p: string) {
    NUL !in p && Minify(p).Done? && LiteralsWell(p)
  }

  ghost function M(p: string): string
    requires Good(p)
  {
    Minify(p).text
  }

  lemma GoodStep(p: string)
    requires Good(p) && p != ""
    ensures Step(p).0 <= |p| && Good(p[Step(p).0..])
    ensures M(p) == p[..Step(p).1] + M(p[Step(p).0..])
  {
  }

  /** A character that is kept by itself. */
  lemma KeptChar(p: string)
    requires Good(p) && p != "" && Plain(p[0])
    ensures Good(p[1..]) && M(p) == [p[0]] + M(p[1..]) && M(p)[1..] == M(p[1..])
  {
    GoodStep(p);
    assert p[..1] == [p[0]];
    assert ([p[0]] + M(p[1..]))[1..] == M(p[1..]);
  }

  lemma {:induction false} KeptChars(p: string, n: nat)
    requires Good(p) && n <= |p| && forall i :: 0 <= i < n ==> Plain(p[i])
    ensures Good(p[n..]) && M(p) == p[..n] + M(p[n..])
  {
    if n == 0 {
      assert p[0..] == p && p[..0] + M(p) == M(p);
    } else {
      KeptChar(p);
      KeptChars(p[1..], n - 1);
      assert p[1..][n - 1..] == p[n..] && p[..n] == [p[0]] + p[1..][..n - 1];
      assert [p[0]] + (p[1..][..n - 1] + M(p[n..])) == p[..n] + M(p[n..]);
    }
  }

  /** Behind the blanks there is no comment. */
  lemma {:induction false} SkipMinified(p: string)
    requires Good(p) && Head(Skip(p)) != '/'
    ensures Good(Skip(p)) && Skip(M(p)) == M(Skip(p))
    ensures Skip(p) == "" <==> Skip(M(p)) == ""
    ensures Skip(p) != "" ==> Head(Skip(M(p))) == Head(Skip(p))
    decreases |p|
  {
    if p != "" && p[0] <= ' ' {
      if IsBlank(p[0]) {
        GoodStep(p);
        assert p[..0] + M(p[1..]) == M(p[1..]);
      } else {
        KeptChar(p);
      }
      SkipMinified(p[1..]);
    } else if p != "" {
      StartKept(p);
    }
  }

  lemma StartKept(p: string)
    requires Good(p) && p != "" && p[0] > ' ' && p[0] != '/'
    ensures M(p) != "" && M(p)[0] == p[0] && Skip(M(p)) == M(p)
  {
    GoodStep(p);
    assert p[..Step(p).1][0] == p[0];
  }

  // String literals.

  /** Two texts that agree up to the quote that closes a literal. */
  ghost predicate SameUpTo(p: string, q: string, n: nat) {
    n <= |p| && n <= |q| && p[..n] == q[..n]
  }

  lemma SameAt(p: string, q: string, n: nat, i: nat)
    requires SameUpTo(p, q, n) && i < n
    ensures At(p, i) == At(q, i)
  {
    assert p[i] == p[..n][i] && q[i] == q[..n][i];
  }

  lemma SameDrop(p: string, q: string, n: nat, k: nat)
    requires SameUpTo(p, q, n) && k <= n
    ensures SameUpTo(Drop(p, k), Drop(q, k), n - k)
  {
    assert Drop(p, k)[..n - k] == p[..n][k..] && Drop(q, k)[..n - k] == q[..n][k..];
  }

  lemma LiteralHex(p: string, k: nat)
    requires IsHex(At(p, k))
    ensures Literal(Drop(p, k)) == 1 + Literal(Drop(p, k + 1))
  {
    assert Drop(p, k)[1..] == Drop(p, k + 1);
  }

  lemma LiteralUnicode(p: string)
    requires Head(p) == '\\' && At(p, 1) == 'u'
    requires IsHex(At(p, 2)) && IsHex(At(p, 3)) && IsHex(At(p, 4)) && IsHex(At(p, 5))
    ensures Literal(p) == 6 + Literal(Drop(p, 6))
  {
    LiteralHex(p, 2);
    LiteralHex(p, 3);
    LiteralHex(p, 4);
    LiteralHex(p, 5);
  }

  lemma SameHex4(p: string, q: string, n: nat, k: nat)
    requires SameUpTo(p, q, n) && k + 4 <= n
    ensures Hex4(Drop(p, k)) == Hex4(Drop(q, k))
  {
    SameAt(p, q, n, k);
    SameAt(p, q, n, k + 1);
    SameAt(p, q, n, k + 2);
    SameAt(p, q, n, k + 3);
    assert forall i :: 0 <= i < 4 ==> At(Drop(p, k), i) == At(p, k + i) && At(Drop(q, k), i) == At(q, k + i);
  }

  lemma EscapeInLiteral(p: string)
    requires WellEscaped(p) && Head(p) == '\\' && At(p, 1) == 'u'
    ensures var k := UnicodeEscape(p).1;
      WellEscaped(Drop(p, k)) && Literal(p) == k + Literal(Drop(p, k))
  {
    LiteralUnicode(p);
    if UnicodeEscape(p).1 == 12 {
      CountedPair(p);
      var r := Drop(p, 6);
      assert At(r, 0) == At(p, 6) && At(r, 1) == At(p, 7);
      LiteralUnicode(r);
      assert Drop(r, 6) == Drop(p, 12);
    }
  }

  /** Behind one escape of a literal there is its quote, or more of it: another escape is there whole. */
  lemma SecondInLiteral(p: string)
    requires WellEscaped(p) && Head(p) == '\\' && At(p, 1) == 'u'
    ensures Literal(p) >= 7
    ensures At(p, 6) == '\\' ==> Literal(p) >= 9
    ensures At(p, 6) == '\\' && At(p, 7) == 'u' ==> Literal(p) >= 13
  {
    LiteralUnicode(p);
    var r := Drop(p, 6);
    assert At(r, 0) == At(p, 6) && At(r, 1) == At(p, 7);
    if At(p, 6) == '\\' && At(p, 7) == 'u' {
      LiteralUnicode(r);
    }
  }

  /** An escape is decoded from the characters of its literal alone. */
  lemma SameEscape(p: string, q: string)
    requires WellEscaped(p) && Head(p) == '\\' && At(p, 1) == 'u' && SameUpTo(p, q, Literal(p))
    ensures UnicodeEscape(p) == UnicodeEscape(q)
  {
    var n := Literal(p);
    SecondInLiteral(p);
    SameHex4(p, q, n, 2);
    SameAt(p, q, n, 6);
    if At(p, 6) == '\\' {
      SameAt(p, q, n, 7);
      if At(p, 7) == 'u' {
        SameHex4(p, q, n, 8);
      }
    }
  }

  /** The first piece of a literal: how much it passes, and what it stands for. */
  lemma SamePiece(p: string, q: string) returns (piece: string, k: nat)
    requires WellEscaped(p) && NUL !in p && Literal(p) <= |p| && SameUpTo(p, q, Literal(p)) && p[0] != '\"'
    ensures k >= 1 && Literal(p) == k + Literal(Drop(p, k)) && WellEscaped(Drop(p, k))
    ensures Unescape(p) == (piece + Unescape(Drop(p, k)).0, Unescape(Drop(p, k)).1)
    ensures Unescape(q) == (piece + Unescape(Drop(q, k)).0, Unescape(Drop(q, k)).1)
  {
    var n := Literal(p);
    SameAt(p, q, n, 0);
    if p[0] != '\\' {
      piece, k := [p[0]], 1;
    } else {
      SameAt(p, q, n, 1);
      if At(p, 1) == 'u' {
        SameEscape(p, q);
        EscapeInLiteral(p);
        piece, k := UnicodeEscape(p).0, UnicodeEscape(p).1;
      } else {
        piece, k := [Unmark(At(p, 1))], 2;
      }
    }
  }

  lemma DropSlice(p: string, k: nat, m: nat)
    requires k <= m <= |p|
    ensures Drop(p, k)[m - k..] == p[m..]
  {
  }

  /** Both texts read alike up to the quote. */
  ghost predicate ReadsAlike(p: string, q: string, n: nat) {
    && 1 <= n <= |p| && n <= |q|
    && Unescape(p) == (Unescape(q).0, p[n - 1..]) && Unescape(q).1 == q[n - 1..]
  }

  lemma AlikeWithPiece(p: string, q: string, n: nat, piece: string, k: nat)
    requires k < n <= |p| && n <= |q| && ReadsAlike(Drop(p, k), Drop(q, k), n - k)
    requires Unescape(p) == (piece + Unescape(Drop(p, k)).0, Unescape(Drop(p, k)).1)
    requires Unescape(q) == (piece + Unescape(Drop(q, k)).0, Unescape(Drop(q, k)).1)
    ensures ReadsAlike(p, q, n)
  {
    DropSlice(p, k, n - 1);
    DropSlice(q, k, n - 1);
  }

  lemma {:induction false} SameLiteral(p: string, q: string, n: nat)
    requires WellEscaped(p) && NUL !in p && Literal(p) == n <= |p| && SameUpTo(p, q, n)
    ensures ReadsAlike(p, q, n)
    decreases |p|
  {
    if p[0] == '\"' {
      SameAt(p, q, n, 0);
      assert p[0..] == p && q[0..] == q;
    } else {
      var piece, k := SamePiece(p, q);
      SameDrop(p, q, n, k);
      SameLiteral(Drop(p, k), Drop(q, k), n - k);
      AlikeWithPiece(p, q, n, piece, k);
    }
  }

  /** What a literal reads as, from any text that agrees with it. */
  lemma LiteralReads(p: string, q: string, n: nat)
    requires WellEscaped(p) && NUL !in p && Literal(p) == n <= |p| && SameUpTo(p, q, n)
    ensures ParseString("\"" + q) == Ok(Unescape(p).0, q[n..])
  {
    SameLiteral(p, q, n);
    LiteralCloses(p);
    SameAt(p, q, n, n - 1);
    var s := "\"" + q;
    assert s[1..] == q;
    assert q[n - 1..][1..] == q[n..] && q[n - 1..][0] == '\"';
  }

  lemma Quoted(p: string, q: string, n: nat, more: string)
    requires p == "\"" + q && n <= |q|
    ensures p[..1 + n] + more == "\"" + (q[..n] + more)
  {
  }

  lemma StringMinified(p: string)
    requires Good(p) && Head(p) == '\"' && ParseString(p).Ok?
    ensures var r := ParseString(p);
      Good(r.rest) && ParseString(M(p)) == Ok(r.value, M(r.rest))
  {
    var q := p[1..];
    var n := Literal(q);
    GoodStep(p);
    var more := M(p[1 + n..]);
    var t := q[..n] + more;
    assert t[..n] == q[..n] && t[n..] == more && q[n..] == p[1 + n..];
    LiteralReads(q, q, n);
    LiteralReads(q, t, n);
    assert p == "\"" + q;
    Quoted(p, q, n, more);
  }

  lemma {:induction false} LiteralCloses(q: string)
    requires NUL !in q && Literal(q) <= |q|
    ensures q[Literal(q) - 1] == '\"'
    decreases |q|
  {
    if q[0] == '\\' {
      LiteralCloses(q[2..]);
    } else if q[0] != '\"' {
      LiteralCloses(q[1..]);
    }
  }

  // Numbers.

  lemma {:induction false} DigitsMinified(n: nat, p: string)
    requires Good(p)
    ensures var r := ScanDigits(n, p);
      Good(r.1) && (Stops(M(r.1)) ==> ScanDigits(n, M(p)) == (r.0, M(r.1)))
    decreases |p|
  {
    if p != [] && IsDigit(p[0]) {
      KeptChar(p);
      DigitsMinified(10 * n + DigitValue(p[0]), p[1..]);
    }
  }

  /** A value ends here: behind blanks there is a comma, a closing bracket or brace, or nothing. */
  predicate Closes(rest: string) {
    Head(Skip(rest)) == ',' || Head(Skip(rest)) == ']' || Head(Skip(rest)) == '}' || Skip(rest) == ""
  }

  lemma ClosesStops(rest: string)
    requires Good(rest) && Closes(rest)
    ensures Stops(M(rest))
  {
    SkipMinified(rest);
    assert M(rest) != "" && M(rest)[0] > ' ' ==> Skip(M(rest)) == M(rest);
  }

  /** The digits of a number behind its sign. */
  function Magnitude(q: string): (int, string) {
    var q0 := if Head(q) == '0' then q[1..] else q;
    if '1' <= Head(q0) <= '9' then ScanDigits(0, q0) else (0, q0)
  }

  lemma NumberIs(p: string, neg: bool, q: string, m: int, rest: string)
    requires Head(p) == '-' || IsDigit(Head(p))
    requires neg == (Head(p) == '-') && q == (if neg then p[1..] else p) && (m, rest) == Magnitude(q) && Stops(rest)
    ensures var n := if neg then -m else m;
      ParseNumber(p) == if IsInt32(n) then Ok(n, rest) else Inexact
  {
  }

  /** A number that is followed by what closes a value. */
  lemma NumberRest(p: string, q: string)
    requires (Head(p) == '-' || IsDigit(Head(p))) && q == if Head(p) == '-' then p[1..] else p
    requires ParseNumber(p).Ok? && Closes(ParseNumber(p).rest)
    ensures Magnitude(q).1 == ParseNumber(p).rest && Stops(ParseNumber(p).rest)
  {
  }

  lemma MagnitudeMinified(q: string)
    requires Good(q)
    ensures var r := Magnitude(q);
      Good(r.1) && (Stops(M(r.1)) ==> Magnitude(M(q)) == (r.0, M(r.1)))
  {
    var q0 := if Head(q) == '0' then q[1..] else q;
    if Head(q) == '0' {
      KeptChar(q);
    }
    if '1' <= Head(q0) <= '9' {
      KeptChar(q0);
      DigitsMinified(0, q0);
    }
  }

  lemma NumberMinified(p: string)
    requires Good(p) && (Head(p) == '-' || IsDigit(Head(p))) && ParseNumber(p).Ok? && Closes(ParseNumber(p).rest)
    ensures var r := ParseNumber(p);
      Good(r.rest) && ParseNumber(M(p)) == Ok(r.value, M(r.rest))
  {
    var neg := Head(p) == '-';
    var q := if neg then p[1..] else p;
    NumberRest(p, q);
    var (m, rest) := Magnitude(q);
    NumberIs(p, neg, q, m, rest);
    KeptChar(p);
    MagnitudeMinified(q);
    ClosesStops(rest);
    NumberIs(M(p), neg, M(q), m, M(rest));
  }

  // Values.

  lemma KeywordMinified(p: string, k: string)
    requires Good(p) && k <= p && (k == "null" || k == "false" || k == "true")
    ensures Good(p[|k|..]) && k <= M(p) && M(p)[|k|..] == M(p[|k|..])
  {
    assert p[..|k|] == k;
    KeptChars(p, |k|);
    assert (k + M(p[|k|..]))[|k|..] == M(p[|k|..]);
  }

  lemma NoKeyword(p: string)
    requires p != "" && p[0] != 'n' && p[0] != 'f' && p[0] != 't'
    ensures !("null" <= p) && !("false" <= p) && !("true" <= p)
  {
    assert "null"[0] == 'n' && "false"[0] == 'f' && "true"[0] == 't';
  }

  /** What a value starts with. */
  lemma ValueStart(p: string)
    requires ParseValue(p).Ok?
    ensures p != "" && p[0] > ' ' && p[0] != '/' && p[0] != ',' && p[0] != ']' && p[0] != '}' && Skip(p) == p
  {
    if "null" <= p {
      assert p[0] == "null"[0];
    } else if "false" <= p {
      assert p[0] == "false"[0];
    } else if "true" <= p {
      assert p[0] == "true"[0];
    }
  }

  lemma {:induction false} ValueMinified(p: string)
    requires Good(p) && ParseValue(p).Ok? && Closes(ParseValue(p).rest)
    ensures var r := ParseValue(p);
      Good(r.rest) && ParseValue(M(p)) == Ok(r.value, M(r.rest))
    decreases |p|, 2
  {
    ValueStart(p);
    StartKept(p);
    if "null" <= p {
      KeywordMinified(p, "null");
    } else if "false" <= p {
      KeywordMinified(p, "false");
      assert M(p)[0] == "false"[0];
    } else if "true" <= p {
      KeywordMinified(p, "true");
      assert M(p)[0] == "true"[0];
    } else {
      NotKeywordMinified(p);
      if Head(p) == '\"' {
        StringMinified(p);
      } else if Head(p) == '-' || IsDigit(Head(p)) {
        NumberMinified(p);
      } else if Head(p) == '[' {
        ArrayMinified(p);
      } else {
        ObjectMinified(p);
      }
    }
  }

  lemma NotKeywordMinified(p: string)
    requires Good(p) && ParseValue(p).Ok? && !("null" <= p) && !("false" <= p) && !("true" <= p)
    ensures M(p) != "" && M(p)[0] == p[0] && !("null" <= M(p)) && !("false" <= M(p)) && !("true" <= M(p))
  {
    ValueStart(p);
    StartKept(p);
    NoKeyword(M(p));
  }

  lemma {:induction false} ArrayMinified(p: string)
    requires Good(p) && Head(p) == '[' && ParseArray(p).Ok?
    ensures var r := ParseArray(p);
      Good(r.rest) && ParseArray(M(p)) == Ok(r.value, M(r.rest)) && Head(M(p)) == '['
    decreases |p|, 1
  {
    KeptChar(p);
    var q := Skip(p[1..]);
    if Head(q) == ']' {
      SkipMinified(p[1..]);
      KeptChar(q);
    } else {
      ItemsStart(q);
      SkipMinified(p[1..]);
      ItemsMinified(q);
    }
  }

  lemma ItemsStart(q: string)
    requires ParseItems(q).Ok?
    ensures Skip(q) != "" && Head(Skip(q)) != '/' && Head(Skip(q)) != ']'
  {
    ValueStart(Skip(q));
  }

  /** Behind a value: the blanks and the character that closes it. */
  lemma CloserMinified(after: string)
    requires Good(after) && Closes(after) && Skip(after) != ""
    ensures var q := Skip(after);
      Good(q) && Skip(M(after)) == M(q) && Good(q[1..]) && M(q) == [q[0]] + M(q[1..]) && M(q)[1..] == M(q[1..])
  {
    SkipMinified(after);
    KeptChar(Skip(after));
  }

  lemma {:induction false} ItemsMinified(p: string)
    requires Good(p) && ParseItems(p).Ok?
    ensures var r := ParseItems(p);
      Good(r.rest) && ParseItems(M(p)) == Ok(r.value, M(r.rest))
    decreases |p|, 3
  {
    ItemsStart(p);
    SkipMinified(p);
    var first := ParseValue(Skip(p));
    ValueMinified(Skip(p));
    CloserMinified(first.rest);
    var q := Skip(first.rest);
    if Head(q) == ',' {
      ItemsMinified(q[1..]);
    }
  }

  lemma {:induction false} ObjectMinified(p: string)
    requires Good(p) && Head(p) == '{' && ParseObject(p).Ok?
    ensures var r := ParseObject(p);
      Good(r.rest) && ParseObject(M(p)) == Ok(r.value, M(r.rest)) && Head(M(p)) == '{'
    decreases |p|, 1
  {
    KeptChar(p);
    var q := Skip(p[1..]);
    if Head(q) == '}' {
      SkipMinified(p[1..]);
      KeptChar(q);
    } else {
      MemberStart(q);
      SkipMinified(p[1..]);
      MembersMinified(q);
    }
  }

  lemma MemberStart(q: string)
    requires ParseMember(q).Ok?
    ensures Head(Skip(q)) == '\"'
  {
  }

  lemma {:induction false} MemberMinified(p: string)
    requires Good(p) && ParseMember(p).Ok? && Closes(ParseMember(p).rest)
    ensures var r := ParseMember(p);
      Good(r.rest) && ParseMember(M(p)) == Ok(r.value, M(r.rest))
    decreases |p|, 3
  {
    MemberStart(p);
    SkipMinified(p);
    StringMinified(Skip(p));
    var colon := ParseString(Skip(p)).rest;
    SkipMinified(colon);
    var q := Skip(colon);
    KeptChar(q);
    ValueStart(Skip(q[1..]));
    SkipMinified(q[1..]);
    ValueMinified(Skip(q[1..]));
  }

  lemma {:induction false} MembersMinified(p: string)
    requires Good(p) && ParseMembers(p).Ok?
    ensures var r := ParseMembers(p);
      Good(r.rest) && ParseMembers(M(p)) == Ok(r.value, M(r.rest))
    decreases |p|, 4
  {
    MemberMinified(p);
    var m := ParseMember(p);
    CloserMinified(m.rest);
    var q := Skip(m.rest);
    if Head(q) == ',' {
      MembersMinified(q[1..]);
    }
  }

  /**
   * A text that parses, with nothing but blanks behind the value, still parses to the value once it is minified,
   * with nothing but blanks behind it.
   */
  lemma MinifiedParsesSame(p: string)
    requires Good(p) && Parse(p).Ok? && Skip(Parse(p).rest) == ""
    ensures var r := Parse(M(p));
      r.Ok? && r.value == Parse(p).value && Skip(r.rest) == ""
  {
    ValueStart(Skip(p));
    SkipMinified(p);
    ValueMinified(Skip(p));
    SkipMinified(Parse(p).rest);
  }

  lemma MalformedPassed(s: string, rest: string)
    requires |s| == 6 && s[0] == '\\' && s[1] == 'u' && s[2] == '\"'
    ensures Unescape(s + rest) == Unescape(rest)
  {
    var p := s + rest;
    assert p[0] == '\\' && p[1] == 'u' && p[2] == '\"';
    assert At(Drop(p, 2), 0) == '\"' && Hex4(Drop(p, 2)) == 0;
    assert Drop(p, 6) == rest && UnicodeEscape(p) == ("", 6);
    assert "" + Unescape(rest).0 == Unescape(rest).0;
  }

  lemma MalformedReads(s: string, y: string)
    requires |s| == 7 && s[0] == '\"' && s[1] == '\\' && s[2] == 'u' && s[3] == '\"'
    requires y == "" || (|y| == 1 && y[0] != NUL && y[0] != '\"' && y[0] != '\\')
    ensures ParseString(s + (y + "\"")) == Ok(y, "")
  {
    var p, tail := s + (y + "\""), y + "\"";
    MalformedPassed(s[1..], tail);
    assert p[1..] == s[1..] + tail && p[0] == '\"';
    assert Unescape("\"") == ("", "\"");
    if y == "" {
      assert tail == "\"";
    } else {
      assert tail[0] == y[0] && Drop(tail, 1) == "\"" && [y[0]] + "" == y;
    }
  }

  /**
   * With a malformed escape it need not: the parser passes the first quote here, the minifier takes it for one.
   * x and y are any plain characters.
   */
  lemma MalformedMayDiffer(a: string, b: string, x: char, y: char)
    requires a == "\"\\u\"" && b == "\"" + [x, y] + "\"" && ShortLiteral(b) && x != '\\'
    ensures Minify(a + (" " + b)) == Done(a + b)
    ensures ParseString(a + (" " + b)) == Ok([y], "") && ParseString(a + b) == Ok("", "")
  {
    TwoLiterals(a, b);
    MalformedReads(a + " \"" + [x], [y]);
    MalformedReads(a + "\"" + [x, y], "");
    Respelled(a, b, x, y);
  }

  lemma Respelled(a: string, b: string, x: char, y: char)
    requires b == "\"" + [x, y] + "\""
    ensures a + (" " + b) == (a + " \"" + [x]) + ([y] + "\"")
    ensures a + b == (a + "\"" + [x, y]) + ("" + "\"")
  {
  }

  /** A literal of a character or a backslash, and one more character. */
  predicate ShortLiteral(s: string) {
    && |s| == 4 && s[0] == '\"' && s[3] == '\"' && s[2] != NUL && s[2] != '\"' && s[2] != '\\'
    && s[1] != NUL && s[1] != '\"'
  }

  lemma ShortLiteralStep(s: string, rest: string)
    requires ShortLiteral(s)
    ensures Head(s + rest) != NUL && Step(s + rest) == (4, 4)
  {
    var p := s + rest;
    assert p[0] == s[0] && p[1] == s[1] && p[2] == s[2] && p[3] == s[3];
    assert p[1..][1..] == p[2..] && p[1..][2..] == p[3..] && p[2..][1..] == p[3..];
    assert Literal(p[3..]) == 1 && Literal(p[2..]) == 2;
    assert Literal(p[1..]) == 3;
  }

  lemma TwoLiterals(a: string, b: string)
    requires ShortLiteral(a) && ShortLiteral(b)
    ensures Minify(a + (" " + b)) == Done(a + b)
  {
    ShortLiteralStep(b, "");
    StepOnce(b, "", 4);
    assert b + "" == b && b[..4] == b && a[..4] == a;
    StepOnce(" ", b, 0);
    assert "" + b == b;
    ShortLiteralStep(a, " " + b);
    StepOnce(a, " " + b, 4);
  }
}
