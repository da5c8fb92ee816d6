/** Path patterns as glob(3) matches them: star, question mark, brackets and backslash are special. */
module Glob {
  import opened Options

  datatype Range = Range(low: char, high: char)

  /** A bracket expression, and the pattern behind it; without its closing bracket it is no expression. */
  datatype Bracket = Unclosed | Bracket(negated: bool, ranges: seq<Range>, rest: string)

  /** One character of a bracket expression, which a backslash may quote. */
  function Quoted(p: string): (r: (char, string))
    requires p != []
    ensures |r.1| < |p|
  {
    if p[0] == '\\' && |p| > 1 && p[1] != '/' then (p[1], p[2..]) else (p[0], p[1..])
  }

  /** The ranges up to the closing bracket; a closing bracket that comes first stands for itself. */
  function Ranges(p: string, first: bool): (r: Option<(seq<Range>, string)>)
    ensures r.Some? ==> |r.value.1| < |p|
    decreases |p|
  {
    if p == [] || p[0] == '/' then None
    else if p[0] == ']' && !first then Some(([], p[1..]))
    else
      var (low, q) := Quoted(p);
      if |q| >= 2 && q[0] == '-' && q[1] != ']' && q[1] != '/' then
        var (high, more) := Quoted(q[1..]);
        Preceded(Range(low, high), Ranges(more, false))
      else Preceded(Range(low, low), Ranges(q, false))
  }

  function Preceded(x: Range, r: Option<(seq<Range>, string)>): Option<(seq<Range>, string)> {
    match r
    case None => None
    case Some((ranges, rest)) => Some(([x] + ranges, rest))
  }

  /** The expression that starts behind an opening bracket. */
  function BracketAt(p: string): (b: Bracket)
    ensures b.Bracket? ==> |b.rest| < |p|
  {
    var negated := p != [] && (p[0] == '!' || p[0] == '^');
    match Ranges(if negated then p[1..] else p, true)
    case None => Unclosed
    case Some((ranges, rest)) => Bracket(negated, ranges, rest)
  }

  predicate Contains(b: Bracket, c: char)
    requires b.Bracket?
  {
    (exists i :: 0 <= i < |b.ranges| && b.ranges[i].low <= c <= b.ranges[i].high) != b.negated
  }

  /** No wildcard takes a slash, nor a dot that leads a component of the path. */
  predicate Takes(c: char, lead: bool) {
    c != '/' && !(lead && c == '.')
  }

  /** Does the text match the pattern? lead says that a component of the path starts here. */
  predicate Match(p: string, s: string, lead: bool)
    decreases |p|, |s|
  {
    if p == [] then s == []
    else if p[0] == '*' then
      && (s == [] || !(lead && s[0] == '.'))
      && (Match(p[1..], s, lead) || (s != [] && s[0] != '/' && Match(p, s[1..], false)))
    else if p[0] == '?' then s != [] && Takes(s[0], lead) && Match(p[1..], s[1..], false)
    else if p[0] == '[' && BracketAt(p[1..]).Bracket? then
      && s != [] && Takes(s[0], lead)
      && Contains(BracketAt(p[1..]), s[0]) && Match(BracketAt(p[1..]).rest, s[1..], false)
    else if p[0] == '\\' then |p| > 1 && s != [] && s[0] == p[1] && Match(p[2..], s[1..], p[1] == '/')
    else s != [] && s[0] == p[0] && Match(p[1..], s[1..], p[0] == '/')
  }

  /** How many units a pattern has: plain characters, quoted ones, wildcards and bracket expressions. */
  function Units(p: string): (n: nat)
    ensures n <= |p|
    decreases |p|
  {
    if p == [] then 0
    else if p[0] == '\\' then if |p| > 1 then 1 + Units(p[2..]) else 0
    else if p[0] == '[' && BracketAt(p[1..]).Bracket? then 1 + Units(BracketAt(p[1..]).rest)
    else 1 + Units(p[1..])
  }

  predicate Wild(c: char) {
    c == '*' || c == '?'
  }

  predicate NoWild(p: string) {
    forall i :: 0 <= i < |p| ==> !Wild(p[i])
  }

  /** Neither quoted characters nor bracket expressions: every character is a unit. */
  predicate Single(p: string) {
    Units(p) == |p|
  }

  /** None of the characters that are special to glob. */
  predicate Plain(p: string) {
    forall i :: 0 <= i < |p| ==> !Wild(p[i]) && p[i] != '[' && p[i] != '\\'
  }

  lemma {:induction false} PlainIsSingle(p: string, q: string)
    requires Plain(p) && Single(q)
    ensures NoWild(p) && Single(p + q)
  {
    if p == [] {
      assert p + q == q;
    } else {
      PlainIsSingle(p[1..], q);
      assert (p + q)[1..] == p[1..] + q;
    }
  }

  // Patterns of single units.

  function LeadAfter(a: string, lead: bool): bool {
    if a == [] then lead else a[|a| - 1] == '/'
  }

  lemma SingleStep(p: string)
    requires Single(p) && p != []
    ensures Single(p[1..]) && p[0] != '\\' && (p[0] == '[' ==> BracketAt(p[1..]).Unclosed?)
  {
  }

  /** Characters that are no wildcards match themselves. */
  lemma {:induction false} LiteralFront(a: string, q: string, s: string, lead: bool)
    requires Single(a + q) && NoWild(a)
    ensures Single(q)
    ensures Match(a + q, s, lead) <==> a <= s && Match(q, s[|a|..], LeadAfter(a, lead))
    decreases |a|
  {
    if a == [] {
      assert a + q == q && s[0..] == s;
    } else {
      var p := a + q;
      SingleStep(p);
      assert p[1..] == a[1..] + q;
      if s != [] {
        LiteralFront(a[1..], q, s[1..], a[0] == '/');
        assert a <= s <==> a[0] == s[0] && a[1..] <= s[1..] by {
          PrefixStep(a, s);
        }
        assert a <= s ==> s[1..][|a| - 1..] == s[|a|..];
      } else {
        LiteralFront(a[1..], q, [], a[0] == '/');
      }
    }
  }

  lemma PrefixStep(a: string, s: string)
    requires a != [] && s != []
    ensures a <= s <==> a[0] == s[0] && a[1..] <= s[1..]
  {
    assert a == [a[0]] + a[1..] && s == [s[0]] + s[1..];
  }

  lemma LiteralOnly(b: string, s: string, lead: bool)
    requires Single(b) && NoWild(b)
    ensures Match(b, s, lead) <==> s == b
  {
    assert b + [] == b;
    LiteralFront(b, [], s, lead);
    assert b <= s && s[|b|..] == [] ==> s == b;
  }

  /** The same for a pattern of any kind behind characters that are not special. */
  lemma {:induction false} PlainFront(a: string, q: string, s: string, lead: bool)
    requires Plain(a)
    ensures Match(a + q, s, lead) <==> a <= s && Match(q, s[|a|..], LeadAfter(a, lead))
    decreases |a|
  {
    if a == [] {
      assert a + q == q && s[0..] == s;
    } else {
      assert (a + q)[1..] == a[1..] + q;
      if s != [] {
        PlainFront(a[1..], q, s[1..], a[0] == '/');
        PrefixStep(a, s);
        assert a <= s ==> s[1..][|a| - 1..] == s[|a|..];
      }
    }
  }

  lemma BracketOfOne(x: char, rest: string)
    requires x !in "!^]/-\\"
    ensures BracketAt([x] + "]" + rest) == Bracket(false, [Range(x, x)], rest)
  {
    var p := [x] + "]" + rest;
    assert p[1..] == "]" + rest && ("]" + rest)[1..] == rest;
    assert Quoted(p) == (x, "]" + rest);
    assert Ranges("]" + rest, false) == Some(([], rest));
  }

  /** A star takes any characters but slashes, and no leading dot. */
  lemma {:induction false} StarThenLiteral(b: string, s: string, lead: bool)
    requires Single(b) && NoWild(b)
    ensures Match("*" + b, s, lead) <==> StarFits(b, s, lead)
    decreases |s|
  {
    var p := "*" + b;
    assert p[1..] == b;
    LiteralOnly(b, s, lead);
    if s != [] {
      StarThenLiteral(b, s[1..], false);
      StarFitsStep(b, s, lead);
    }
  }

  predicate StarFits(b: string, s: string, lead: bool) {
    var n := |s| - |b|;
    && 0 <= n && s[n..] == b && '/' !in s[..n]
    && !(lead && s != [] && s[0] == '.')
  }

  lemma StarFitsStep(b: string, s: string, lead: bool)
    requires s != []
    ensures StarFits(b, s, lead) <==>
      && !(lead && s[0] == '.') && (s == b || (s[0] != '/' && StarFits(b, s[1..], false)))
  {
    var n := |s| - |b|;
    if n > 0 {
      assert s[1..][n - 1..] == s[n..];
      assert s[..n] == [s[0]] + s[1..][..n - 1];
    } else if n == 0 {
      assert s[0..] == s;
    }
  }

  /** A text that has an x for some wildcards, and is the pattern else, matches it. */
  lemma {:induction false} FixedText(p: string, t: string, lead: bool)
    requires Single(p) && |t| == |p|
    requires forall i :: 0 <= i < |p| ==> t[i] == p[i] || (Wild(p[i]) && t[i] == 'x')
    ensures Match(p, t, lead)
    decreases |p|
  {
    if p != [] {
      SingleStep(p);
      if p[0] == '*' {
        FixedText(p[1..], t[1..], false);
        assert Match(p, t[1..], false);
      } else if p[0] == '?' {
        FixedText(p[1..], t[1..], false);
      } else {
        FixedText(p[1..], t[1..], p[0] == '/');
      }
    }
  }

  // Any pattern.

  lemma {:induction false} LeadLess(p: string, s: string)
    requires Match(p, s, true)
    ensures Match(p, s, false)
    decreases |p|, |s|
  {
    if p != [] && p[0] == '*' && Match(p[1..], s, true) {
      LeadLess(p[1..], s);
    }
  }

  /** Where the star at the head of a pattern may end. */
  ghost function StarEnd(p: string, s: string, lead: bool): (k: nat)
    requires p != [] && p[0] == '*' && Match(p, s, lead)
    ensures k <= |s| && Match(p[1..], s[k..], false)
    decreases |s|
  {
    if Match(p[1..], s, lead) then
      assert Match(p[1..], s, false) by {
        if lead {
          LeadLess(p[1..], s);
        }
      }
      assert s[0..] == s;
      0
    else
      var k := StarEnd(p, s[1..], false);
      assert s[1..][k..] == s[k + 1..];
      k + 1
  }

  /** A shorter match: every star takes one x. */
  ghost function Squeezed(p: string, s: string, lead: bool, x: char): (t: string)
    requires Match(p, s, lead) && x != '/' && x != '.'
    ensures Match(p, t, lead) && |t| <= Units(p)
    decreases |p|
  {
    if p == [] then []
    else if p[0] == '*' then
      var t := Squeezed(p[1..], s[StarEnd(p, s, lead)..], false, x);
      assert ([x] + t)[1..] == t;
      assert Match(p, t, false);
      [x] + t
    else if p[0] == '[' && BracketAt(p[1..]).Bracket? then
      [s[0]] + Squeezed(BracketAt(p[1..]).rest, s[1..], false, x)
    else if p[0] == '\\' then [s[0]] + Squeezed(p[2..], s[1..], p[1] == '/', x)
    else [s[0]] + Squeezed(p[1..], s[1..], if p[0] == '?' then false else p[0] == '/', x)
  }

  /** Is there a star outside bracket expressions that is not quoted? */
  predicate HasStar(p: string)
    decreases |p|
  {
    if p == [] then false
    else if p[0] == '*' then true
    else if p[0] == '\\' then |p| > 1 && HasStar(p[2..])
    else if p[0] == '[' && BracketAt(p[1..]).Bracket? then HasStar(BracketAt(p[1..]).rest)
    else HasStar(p[1..])
  }

  /** With a star there are different texts that match, of one and the same length. */
  lemma {:induction false} SqueezedDiffers(p: string, s: string, lead: bool, x: char, y: char)
    requires Match(p, s, lead) && x != y && x != '/' && x != '.' && y != '/' && y != '.'
    ensures |Squeezed(p, s, lead, x)| == |Squeezed(p, s, lead, y)|
    ensures HasStar(p) ==> Squeezed(p, s, lead, x) != Squeezed(p, s, lead, y)
    decreases |p|
  {
    if p == [] {
    } else if p[0] == '*' {
      SqueezedDiffers(p[1..], s[StarEnd(p, s, lead)..], false, x, y);
      assert Squeezed(p, s, lead, x)[0] == x && Squeezed(p, s, lead, y)[0] == y;
    } else if p[0] == '[' && BracketAt(p[1..]).Bracket? {
      SqueezedDiffers(BracketAt(p[1..]).rest, s[1..], false, x, y);
      OneInFront(s[0], Squeezed(BracketAt(p[1..]).rest, s[1..], false, x),
                 Squeezed(BracketAt(p[1..]).rest, s[1..], false, y));
    } else if p[0] == '\\' {
      SqueezedDiffers(p[2..], s[1..], p[1] == '/', x, y);
      OneInFront(s[0], Squeezed(p[2..], s[1..], p[1] == '/', x), Squeezed(p[2..], s[1..], p[1] == '/', y));
    } else {
      var l := if p[0] == '?' then false else p[0] == '/';
      SqueezedDiffers(p[1..], s[1..], l, x, y);
      OneInFront(s[0], Squeezed(p[1..], s[1..], l, x), Squeezed(p[1..], s[1..], l, y));
    }
  }

  lemma OneInFront(c: char, t: string, u: string)
    ensures [c] + t == [c] + u <==> t == u
  {
    assert ([c] + t)[1..] == t && ([c] + u)[1..] == u;
  }

  /** Without a star all texts that match have one length. */
  lemma {:induction false} OneLength(p: string, s: string, lead: bool)
    requires Match(p, s, lead) && !HasStar(p)
    ensures |s| == Units(p)
    decreases |p|
  {
    if p != [] {
      if p[0] == '[' && BracketAt(p[1..]).Bracket? {
        OneLength(BracketAt(p[1..]).rest, s[1..], false);
      } else if p[0] == '\\' {
        OneLength(p[2..], s[1..], p[1] == '/');
      } else {
        OneLength(p[1..], s[1..], if p[0] == '?' then false else p[0] == '/');
      }
    }
  }

  // A star between two texts.

  /** The text starts with a, ends with b, and has no slash and no leading dot between them. */
  predicate FitsLiterally(a: string, b: string, s: string) {
    a <= s && StarFits(b, s[|a|..], LeadAfter(a, true))
  }

  /** Are all characters of a*b but the star matched by themselves alone? */
  predicate Inert(a: string, b: string) {
    Single(a + ("*" + b)) && NoWild(a) && NoWild(b)
  }

  lemma PlainIsInert(a: string, b: string)
    requires Plain(a) && Plain(b)
    ensures Inert(a, b)
  {
    PlainIsSingle(b, []);
    assert b + [] == b;
    assert ("*" + b)[1..] == b;
    PlainIsSingle(a, "*" + b);
  }

  lemma InertMatches(a: string, b: string, s: string)
    requires Inert(a, b)
    ensures Match(a + ("*" + b), s, true) <==> FitsLiterally(a, b, s)
  {
    var p := "*" + b;
    LiteralFront(a, p, s, true);
    SingleStep(p);
    assert p[1..] == b;
    if a <= s {
      StarThenLiteral(b, s[|a|..], LeadAfter(a, true));
    }
  }

  ghost predicate MatchesLiterally(a: string, b: string) {
    forall s :: s != "" ==> (Match(a + ("*" + b), s, true) <==> FitsLiterally(a, b, s))
  }

  /** A digit or two for the star. */
  lemma DigitsFit(a: string, b: string, m: string)
    requires m == "0" || m == "00"
    ensures FitsLiterally(a, b, a + (m + b)) && a + (m + b) != ""
  {
    var s := a + (m + b);
    assert s[|a|..] == m + b;
    assert (m + b)[|m|..] == b && (m + b)[..|m|] == m;
  }

  lemma DigitsMatch(a: string, b: string, m: string)
    requires MatchesLiterally(a, b) && (m == "0" || m == "00")
    ensures Match(a + ("*" + b), a + (m + b), true)
  {
    DigitsFit(a, b, m);
  }

  /** With a star and fewer units than characters two different texts of the least length would fit. */
  lemma StarredIsSingle(a: string, b: string, s: string)
    requires MatchesLiterally(a, b) && HasStar(a + ("*" + b)) && Match(a + ("*" + b), s, true)
    ensures Single(a + ("*" + b))
  {
    var p := a + ("*" + b);
    var t, u := Squeezed(p, s, true, '0'), Squeezed(p, s, true, '1');
    SqueezedDiffers(p, s, true, '0', '1');
    if |t| <= |a| + |b| {
      ShortestFit(a, b, t);
      ShortestFit(a, b, u);
    }
  }

  /** A pattern that matches literally has single units only. */
  lemma LiterallyIsSingle(a: string, b: string)
    requires MatchesLiterally(a, b)
    ensures Single(a + ("*" + b))
  {
    var p, s, r := a + ("*" + b), a + ("0" + b), a + ("00" + b);
    DigitsMatch(a, b, "0");
    DigitsMatch(a, b, "00");
    if HasStar(p) {
      StarredIsSingle(a, b, s);
    } else {
      OneLength(p, s, true);
      OneLength(p, r, true);
    }
  }

  lemma ShortestFit(a: string, b: string, s: string)
    requires FitsLiterally(a, b, s) || s == ""
    requires |s| <= |a| + |b|
    ensures s == a + b || s == ""
  {
    if s != "" {
      assert s == a + s[|a|..];
      assert s[|a|..][0..] == s[|a|..];
    }
  }

  /** And no wildcards. */
  lemma LiterallyIsNoWild(a: string, b: string)
    requires MatchesLiterally(a, b) && Single(a + ("*" + b))
    ensures NoWild(a) && NoWild(b)
  {
    var p := a + ("*" + b);
    forall i | 0 <= i < |p| && i != |a| ensures !Wild(p[i]) {
      if Wild(p[i]) {
        var t := p[i := 'x'];
        FixedText(p, t, true);
        assert FitsLiterally(a, b, t);
        SameLengthFit(a, b, t);
      }
    }
    assert forall i :: 0 <= i < |a| ==> a[i] == p[i];
    assert forall i :: 0 <= i < |b| ==> b[i] == p[|a| + 1 + i];
  }

  lemma SameLengthFit(a: string, b: string, t: string)
    requires FitsLiterally(a, b, t) && |t| == |a| + 1 + |b|
    ensures forall i :: 0 <= i < |t| && i != |a| ==> t[i] == (a + ("*" + b))[i]
  {
    assert t[..|a|] == a && t[|a|..][1..] == t[|a| + 1..];
  }

  /** The paths that match a*b are those that fit literally exactly when the pattern is inert. */
  lemma MatchesLiterallyExactly(a: string, b: string)
    ensures MatchesLiterally(a, b) <==> Inert(a, b)
  {
    if MatchesLiterally(a, b) {
      LiterallyIsSingle(a, b);
      LiterallyIsNoWild(a, b);
    }
    if Inert(a, b) {
      forall s ensures Match(a + ("*" + b), s, true) <==> FitsLiterally(a, b, s) {
        InertMatches(a, b, s);
      }
    }
  }
}
