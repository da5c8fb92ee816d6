/** cJSON_Minify: blanks and comments are dropped in place, string literals are kept. */
module JsonMinify {
  import opened Decimal
  import opened JsonText
  import opened JsonParse
  import opened JsonRoundTrip

  /** Overrun: the source would go on reading behind the terminating NUL. */
  datatype Minified = Overrun | Done(text: string)

  function Prepend(s: string, m: Minified): Minified
  {
    if m.Done? then Done(s + m.text) else m
  }

  predicate IsBlank(c: char)
  {
    c == ' ' || c == '\t' || c == '\r' || c == '\n'
  }

  /** How far a line comment reaches, up to its line end. */
  function LineComment(p: string): (n: nat)
    ensures n <= |p|
  {
    if Head(p) == NUL || p[0] == '\n' then 0 else 1 + LineComment(p[1..])
  }

  /** How far a block comment reaches, its end mark included; beyond |p| when there is none. */
  function BlockComment(p: string): (n: nat)
    ensures n >= 2
  {
    if Head(p) == NUL || (p[0] == '*' && At(p, 1) == '/') then 2 else 1 + BlockComment(p[1..])
  }

  /** How far the rest of a string literal reaches, its quote included; beyond |p| when there is none. */
  function Literal(p: string): (n: nat)
    ensures n >= 1
    decreases |p|
  {
    if Head(p) == NUL || p[0] == '\"' then 1
    else if p[0] == '\\' then 2 + Literal(if |p| == 1 then [] else p[2..])
    else 1 + Literal(p[1..])
  }

  /** How much is passed at the head of a text, and how much of that is kept. */
  function Step(p: string): (r: (nat, nat))
    requires Head(p) != NUL
    ensures r.0 >= 1 && r.1 <= r.0
  {
    if IsBlank(p[0]) then (1, 0)
    else if p[0] == '/' && At(p, 1) == '/' then (LineComment(p), 0)
    else if p[0] == '/' && At(p, 1) == '*' then (BlockComment(p), 0)
    else if p[0] == '\"' then (1 + Literal(p[1..]), 1 + Literal(p[1..]))
    else (1, 1)
  }

  /** The text without blanks and comments. */
  function Minify(p: string): Minified
    decreases |p|
  {
    if Head(p) == NUL then Done("")
    else
      var (passed, kept) := Step(p);
      if passed > |p| then Overrun else Prepend(p[..kept], Minify(p[passed..]))
  }

  lemma StepOnce(s: string, rest: string, kept: nat)
    requires Head(s + rest) != NUL && kept <= |s|
    requires Step(s + rest) == (|s|, kept)
    ensures Minify(s + rest) == Prepend(s[..kept], Minify(rest))
  {
    assert (s + rest)[..kept] == s[..kept];
    assert (s + rest)[|s|..] == rest;
  }

  predicate Plain(c: char)
  {
    c != NUL && !IsBlank(c) && c != '/' && c != '\"'
  }

  lemma {:induction false} PlainKept(s: string, rest: string)
    requires forall i :: 0 <= i < |s| ==> Plain(s[i])
    ensures Minify(s + rest) == Prepend(s, Minify(rest))
    decreases s
  {
    if s == [] {
      assert s + rest == rest;
      assert Minify(rest).Done? ==> [] + Minify(rest).text == Minify(rest).text;
    } else {
      var tail := s[1..] + rest;
      assert s + rest == [s[0]] + tail;
      assert Minify(s + rest) == Prepend([s[0]], Minify(tail)) by {
        StepOnce([s[0]], tail, 1);
      }
      PlainKept(s[1..], rest);
      Prepended([s[0]], s[1..], Minify(rest));
      assert [s[0]] + s[1..] == s;
    }
  }

  lemma Prepended(s: string, t: string, m: Minified)
    ensures Prepend(s, Prepend(t, m)) == Prepend(s + t, m)
  {
    if m.Done? {
      assert s + (t + m.text) == s + t + m.text;
    }
  }

  lemma {:induction false} BlanksDropped(s: string, rest: string)
    requires forall i :: 0 <= i < |s| ==> IsBlank(s[i])
    ensures Minify(s + rest) == Minify(rest)
    decreases s
  {
    if s == [] {
      assert s + rest == rest;
    } else {
      var tail := s[1..] + rest;
      assert s + rest == [s[0]] + tail;
      StepOnce([s[0]], tail, 0);
      BlanksDropped(s[1..], rest);
      assert Minify(tail).Done? ==> [] + Minify(tail).text == Minify(tail).text;
    }
  }

  lemma {:induction false} LiteralLength(s: string, rest: string)
    requires NUL !in s
    ensures Literal(Escape(s) + ("\"" + rest)) == |Escape(s)| + 1
    decreases s
  {
    if s == [] {
      assert Escape(s) + ("\"" + rest) == "\"" + rest;
    } else {
      var tail := Escape(s[1..]) + ("\"" + rest);
      assert Escape(s) + ("\"" + rest) == EscapeChar(s[0]) + tail;
      LiteralLength(s[1..], rest);
      LiteralPassesChar(s[0], tail);
    }
  }

  lemma LiteralPassesPlain(s: string, tail: string)
    requires forall i :: 0 <= i < |s| ==> s[i] != NUL && s[i] != '\"' && s[i] != '\\'
    ensures Literal(s + tail) == |s| + Literal(tail)
    decreases s
  {
    if s == [] {
      assert s + tail == tail;
    } else {
      assert (s + tail)[1..] == s[1..] + tail;
      LiteralPassesPlain(s[1..], tail);
    }
  }

  lemma LiteralPassesChar(c: char, tail: string)
    requires c != NUL
    ensures Literal(EscapeChar(c) + tail) == |EscapeChar(c)| + Literal(tail)
  {
    var e := EscapeChar(c);
    if !NeedsEscape(c) {
      LiteralPassesPlain(e, tail);
    } else {
      assert (e + tail)[2..] == e[2..] + tail;
      LiteralPassesPlain(e[2..], tail);
    }
  }

  lemma QuoteKept(s: string, rest: string)
    requires NUL !in s
    ensures Minify(Quote(s) + rest) == Prepend(Quote(s), Minify(rest))
  {
    var q := Quote(s);
    assert (q + rest)[1..] == Escape(s) + ("\"" + rest);
    LiteralLength(s, rest);
    StepOnce(q, rest, |q|);
    assert q[..|q|] == q;
  }

  lemma {:induction false} TabsAreBlank(n: int)
    ensures forall i :: 0 <= i < |Tabs(n)| ==> IsBlank(Tabs(n)[i])
    decreases n
  {
    if n > 0 {
      TabsAreBlank(n - 1);
    }
  }

  lemma IfDropped(fmt: bool, s: string, rest: string)
    requires forall i :: 0 <= i < |s| ==> IsBlank(s[i])
    ensures Minify(If(fmt, s) + rest) == Minify(rest)
  {
    BlanksDropped(If(fmt, s), rest);
  }

  lemma NumberPlain(n: int)
    ensures forall i :: 0 <= i < |Signed(n)| ==> Plain(Signed(n)[i])
  {
    NumeralScans(if n < 0 then -n else n);
  }

  /** A printed value, formatted or not, is minified to its unformatted text. */
  lemma {:induction false} PrintedIsMinified(v: Json, depth: nat, fmt: bool, rest: string)
    requires Printable(v)
    ensures Minify(Text(v, depth, fmt) + rest) == Prepend(Text(v, depth, false), Minify(rest))
    decreases v, 3, 0
  {
    match v
    case Number(n) => NumberPlain(n); PlainKept(Signed(n), rest);
    case Str(s) => QuoteKept(s, rest);
    case Arr(items) =>
      if items == [] {
        PlainKept("[]", rest);
      } else {
        ItemsMinified(v, 0, depth, fmt, "]" + rest);
        Regroup4("[", ItemsText(v, 0, depth, fmt), "]", rest);
        Enclosed("[", ItemsText(v, 0, depth, fmt) + ("]" + rest), ItemsText(v, 0, depth, false), "]", rest);
      }
    case Obj(members) => ObjectMinified(v, depth, fmt, rest);
    case _ => PlainKept(Text(v, depth, fmt), rest);
  }

  /** A plain opening, a part already known to minify to min, a plain closing. */
  lemma Enclosed(open: string, p: string, min: string, close: string, rest: string)
    requires forall i :: 0 <= i < |open| ==> Plain(open[i])
    requires forall i :: 0 <= i < |close| ==> Plain(close[i])
    requires Minify(p) == Prepend(min, Minify(close + rest))
    ensures Minify(open + p) == Prepend(open + min + close, Minify(rest))
  {
    PlainKept(open, p);
    PlainKept(close, rest);
    Prepended(min, close, Minify(rest));
    Prepended(open, min + close, Minify(rest));
    Regroup3(open, min, close);
  }

  /** A part, a comma with an optional blank, and the parts after it. */
  lemma Joined(t: string, fmt: bool, blank: string, more: string, rest: string, min: string, minMore: string)
    requires forall i :: 0 <= i < |blank| ==> IsBlank(blank[i])
    requires var after := "," + (If(fmt, blank) + (more + rest)); Minify(t + after) == Prepend(min, Minify(after))
    requires Minify(more + rest) == Prepend(minMore, Minify(rest))
    ensures Minify(t + "," + If(fmt, blank) + more + rest) ==
            Prepend(min + "," + If(false, blank) + minMore, Minify(rest))
  {
    Regroup5(t, ",", If(fmt, blank), more, rest);
    PlainKept(",", If(fmt, blank) + (more + rest));
    IfDropped(fmt, blank, more + rest);
    Prepended(",", minMore, Minify(rest));
    Prepended(min, "," + minMore, Minify(rest));
    Regroup4(min, ",", "", minMore);
    assert "" + minMore == minMore;
  }

  lemma {:induction false} ItemsMinified(v: Json, i: nat, depth: nat, fmt: bool, rest: string)
    requires v.Arr? && i < |v.items| && Printable(v)
    ensures Minify(ItemsText(v, i, depth, fmt) + rest) == Prepend(ItemsText(v, i, depth, false), Minify(rest))
    decreases v, 0, |v.items| - i
  {
    var t, min := Text(v.items[i], depth + 1, fmt), Text(v.items[i], depth + 1, false);
    if i + 1 < |v.items| {
      var more := ItemsText(v, i + 1, depth, fmt);
      PrintedIsMinified(v.items[i], depth + 1, fmt, "," + (If(fmt, " ") + (more + rest)));
      ItemsMinified(v, i + 1, depth, fmt, rest);
      Joined(t, fmt, " ", more, rest, min, ItemsText(v, i + 1, depth, false));
    } else {
      PrintedIsMinified(v.items[i], depth + 1, fmt, rest);
    }
  }

  lemma {:induction false} ObjectMinified(v: Json, depth: nat, fmt: bool, rest: string)
    requires v.Obj? && Printable(v)
    ensures Minify(Text(v, depth, fmt) + rest) == Prepend(Text(v, depth, false), Minify(rest))
    decreases v, 2, 0
  {
    TabsAreBlank(depth);
    if v.members == [] {
      EmptyObjectMinified(depth, fmt, rest);
    } else {
      var m, min := MembersText(v, 0, depth + 1, fmt), MembersText(v, 0, depth + 1, false);
      MembersMinified(v, 0, depth + 1, fmt, If(fmt, Tabs(depth)) + ("}" + rest));
      Braced(fmt, m, Tabs(depth), rest, min);
      UnformattedObject(v, depth);
    }
  }

  lemma UnformattedObject(v: Json, depth: nat)
    requires v.Obj? && v.members != []
    ensures Text(v, depth, false) == "{" + MembersText(v, 0, depth + 1, false) + "}"
  {
    var m := MembersText(v, 0, depth + 1, false);
    assert "{" + "" + m + "" + "}" == "{" + m + "}";
  }

  /** Members between braces, with the blanks of the formatted printer. */
  lemma Braced(fmt: bool, m: string, tabs: string, rest: string, min: string)
    requires forall i :: 0 <= i < |tabs| ==> IsBlank(tabs[i])
    requires var close := If(fmt, tabs) + ("}" + rest); Minify(m + close) == Prepend(min, Minify(close))
    ensures Minify("{" + If(fmt, "\n") + m + If(fmt, tabs) + "}" + rest) == Prepend("{" + min + "}", Minify(rest))
  {
    var close := If(fmt, tabs) + ("}" + rest);
    IfDropped(fmt, tabs, "}" + rest);
    IfDropped(fmt, "\n", m + close);
    Enclosed("{", If(fmt, "\n") + (m + close), min, "}", rest);
    Regroup6("{", If(fmt, "\n"), m, If(fmt, tabs), "}", rest);
  }

  lemma EmptyObjectMinified(depth: nat, fmt: bool, rest: string)
    ensures Minify(Text(Obj([]), depth, fmt) + rest) == Prepend(Text(Obj([]), depth, false), Minify(rest))
  {
    TabsAreBlank(depth - 1);
    var inner := If(fmt, "\n" + Tabs(depth - 1));
    IfDropped(fmt, "\n" + Tabs(depth - 1), "}" + rest);
    assert Minify("}" + rest) == Prepend("", Minify("}" + rest));
    Enclosed("{", inner + ("}" + rest), "", "}", rest);
    Regroup4("{", inner, "}", rest);
  }

  lemma {:induction false} MembersMinified(v: Json, i: nat, depth: nat, fmt: bool, rest: string)
    requires v.Obj? && i < |v.members| && Printable(v)
    ensures Minify(MembersText(v, i, depth, fmt) + rest) == Prepend(MembersText(v, i, depth, false), Minify(rest))
    decreases v, 1, |v.members| - i
  {
    var t, min := MemberText(v, i, depth, fmt), MemberText(v, i, depth, false);
    if i + 1 < |v.members| {
      var more := MembersText(v, i + 1, depth, fmt);
      MemberMinified(v, i, depth, fmt, "," + (If(fmt, "\n") + (more + rest)));
      MembersMinified(v, i + 1, depth, fmt, rest);
      Joined(t, fmt, "\n", more, rest, min, MembersText(v, i + 1, depth, false));
    } else {
      Regroup3(t, If(fmt, "\n"), rest);
      MemberMinified(v, i, depth, fmt, If(fmt, "\n") + rest);
      IfDropped(fmt, "\n", rest);
      assert min + "" == min;
    }
  }

  lemma {:induction false} MemberMinified(v: Json, i: nat, depth: nat, fmt: bool, rest: string)
    requires v.Obj? && i < |v.members| && Printable(v)
    ensures Minify(MemberText(v, i, depth, fmt) + rest) == Prepend(MemberText(v, i, depth, false), Minify(rest))
    decreases v, 0, 0
  {
    var m := v.members[i];
    var t, min := Text(m.value, depth, fmt), Text(m.value, depth, false);
    TabsAreBlank(depth);
    PrintedIsMinified(m.value, depth, fmt, rest);
    Named(fmt, Tabs(depth), m.name, t, rest, min);
    assert If(false, Tabs(depth)) + Quote(m.name) + ":" + If(false, "\t") + min == Quote(m.name) + ":" + min;
  }

  /** A name, a colon and a value, with the blanks of the formatted printer. */
  lemma Named(fmt: bool, tabs: string, name: string, t: string, rest: string, min: string)
    requires forall i :: 0 <= i < |tabs| ==> IsBlank(tabs[i])
    requires NUL !in name && Minify(t + rest) == Prepend(min, Minify(rest))
    ensures Minify(If(fmt, tabs) + Quote(name) + ":" + If(fmt, "\t") + t + rest) ==
            Prepend(Quote(name) + ":" + min, Minify(rest))
  {
    var q := Quote(name);
    var value := If(fmt, "\t") + (t + rest);
    IfDropped(fmt, tabs, q + (":" + value));
    QuoteKept(name, ":" + value);
    PlainKept(":", value);
    IfDropped(fmt, "\t", t + rest);
    Prepended(":", min, Minify(rest));
    Prepended(q, ":" + min, Minify(rest));
    Regroup3(q, ":", min);
    Regroup6(If(fmt, tabs), q, ":", If(fmt, "\t"), t, rest);
  }

  /** Minifying what cJSON_Print returned gives what cJSON_PrintUnformatted returns. */
  lemma MinifyFormatted(v: Json)
    requires Printable(v)
    ensures Minify(Text(v, 0, true)) == Done(Text(v, 0, false))
  {
    PrintedIsMinified(v, 0, true, "");
    assert Text(v, 0, true) + "" == Text(v, 0, true);
    assert Text(v, 0, false) + "" == Text(v, 0, false);
  }

  // Comments.

  lemma {:induction false} LineReaches(c: string, rest: string)
    requires NUL !in c && '\n' !in c
    ensures LineComment(c + (['\n'] + rest)) == |c|
    decreases |c|
  {
    var p := c + (['\n'] + rest);
    if c != "" {
      assert p[1..] == c[1..] + (['\n'] + rest) && p[0] == c[0];
      LineReaches(c[1..], rest);
    } else {
      assert p[0] == '\n';
    }
  }

  /** No end mark inside. */
  ghost predicate Open(c: string)
  {
    NUL !in c && forall i :: 0 <= i < |c| - 1 ==> !(c[i] == '*' && c[i + 1] == '/')
  }

  lemma {:induction false} BlockReaches(c: string, rest: string)
    requires Open(c)
    ensures BlockComment(c + (['*', '/'] + rest)) == |c| + 2
    decreases |c|
  {
    var p := c + (['*', '/'] + rest);
    if c != "" {
      assert p[1..] == c[1..] + (['*', '/'] + rest) && p[0] == c[0];
      assert p[1] == if |c| > 1 then c[1] else '*';
      BlockReaches(c[1..], rest);
    } else {
      assert p[0] == '*' && p[1] == '/';
    }
  }

  /** A line comment goes with the line end after it. */
  lemma LineCommentGoes(c: string, rest: string)
    requires NUL !in c && '\n' !in c
    ensures Minify(['/', '/'] + c + (['\n'] + rest)) == Minify(rest)
  {
    var d, tail := ['/', '/'] + c, ['\n'] + rest;
    LineReaches(d, rest);
    assert (d + tail)[0] == '/' && (d + tail)[1] == '/';
    StepOnce(d, tail, 0);
    StepOnce(['\n'], rest, 0);
    NothingInFront(Minify(tail));
    NothingInFront(Minify(rest));
  }

  /** A block comment goes up to its first end mark; the star that opens it may belong to that. */
  lemma BlockCommentGoes(c: string, rest: string)
    requires Open(['/', '*'] + c)
    ensures Minify(['/', '*'] + c + (['*', '/'] + rest)) == Minify(rest)
  {
    var d := ['/', '*'] + c;
    var all := d + ['*', '/'];
    BlockReaches(d, rest);
    assert d + (['*', '/'] + rest) == all + rest;
    assert (all + rest)[0] == '/' && (all + rest)[1] == '*';
    StepOnce(all, rest, 0);
    NothingInFront(Minify(rest));
  }

  lemma NothingInFront(m: Minified)
    ensures Prepend([], m) == m
  {
    if m.Done? {
      assert [] + m.text == m.text;
    }
  }

  // Which texts overrun, said by a scanner that reads one character after the other.

  /** Outside, after a slash, in a comment of either kind, after a star in one, in a literal, after a backslash there. */
  datatype Mode = Outside | Slash | Line | Block | Star | Quoted | Escaped

  function Shift(m: Mode, c: char): Mode
  {
    match m
    case Line => if c == '\n' then Outside else Line
    case Block => if c == '*' then Star else Block
    case Star => if c == '/' then Outside else if c == '*' then Star else Block
    case Quoted => if c == '\"' then Outside else if c == '\\' then Escaped else Quoted
    case Escaped => Quoted
    case _ =>
      if c == '\"' then Quoted
      else if c == '/' then if m == Slash then Line else Slash
      else if c == '*' && m == Slash then Star
      else Outside
  }

  function EndsIn(m: Mode, s: string): Mode
    decreases |s|
  {
    if s == [] then m else EndsIn(Shift(m, s[0]), s[1..])
  }

  /** In a block comment or a string literal. */
  predicate Inside(m: Mode)
  {
    m in {Block, Star, Quoted, Escaped}
  }

  lemma {:induction false} QuotedRun(q: string)
    requires NUL !in q
    ensures var n := Literal(q);
      if n <= |q| then EndsIn(Quoted, q) == EndsIn(Outside, q[n..]) else Inside(EndsIn(Quoted, q))
    decreases |q|
  {
    if q != [] && q[0] == '\\' {
      if |q| > 1 {
        QuotedRun(q[2..]);
        assert q[1..][1..] == q[2..] && EndsIn(Quoted, q) == EndsIn(Quoted, q[2..]);
        var n := Literal(q);
        assert n <= |q| ==> q[2..][n - 2..] == q[n..];
      } else {
        assert q[1..] == [] && EndsIn(Quoted, q) == Escaped;
      }
    } else if q != [] && q[0] != '\"' {
      QuotedRun(q[1..]);
      var n := Literal(q);
      assert n <= |q| ==> q[1..][n - 1..] == q[n..];
    }
  }

  lemma {:induction false} BlockRun(q: string)
    requires NUL !in q
    ensures var n := BlockComment(q);
      if n <= |q| then EndsIn(Block, q) == EndsIn(Outside, q[n..]) else Inside(EndsIn(Block, q))
    decreases |q|, 1
  {
    if q != [] {
      var n := BlockComment(q);
      if q[0] == '*' {
        StarRun(q);
      } else {
        BlockRun(q[1..]);
        assert n <= |q| ==> q[1..][n - 1..] == q[n..];
      }
    }
  }

  lemma {:induction false} StarRun(q: string)
    requires NUL !in q && Head(q) == '*'
    ensures var n := BlockComment(q);
      if n <= |q| then EndsIn(Star, q[1..]) == EndsIn(Outside, q[n..]) else Inside(EndsIn(Star, q[1..]))
    decreases |q|, 0
  {
    var n, rest := BlockComment(q), q[1..];
    if rest != [] && rest[0] == '/' {
      assert n == 2 && rest[1..] == q[2..];
    } else if rest != [] && rest[0] == '*' {
      StarRun(rest);
      assert n <= |q| ==> rest[n - 1..] == q[n..];
    } else if rest != [] {
      BlockRun(rest[1..]);
      assert n == 2 + BlockComment(rest[1..]);
      assert n <= |q| ==> rest[1..][n - 2..] == q[n..];
    }
  }

  lemma {:induction false} LineRun(q: string)
    requires NUL !in q
    ensures LineComment(q) <= |q|
    ensures Inside(EndsIn(Line, q)) <==> Inside(EndsIn(Outside, q[LineComment(q)..]))
    decreases |q|
  {
    var n := LineComment(q);
    if q != [] && q[0] != '\n' {
      LineRun(q[1..]);
      assert q[1..][n - 1..] == q[n..];
    } else {
      assert q[0..] == q;
    }
  }

  lemma TwoShifts(m: Mode, p: string)
    requires |p| >= 2
    ensures EndsIn(m, p) == EndsIn(Shift(Shift(m, p[0]), p[1]), p[2..])
  {
    assert p[1..][1..] == p[2..];
  }

  lemma SlashesPassed(p: string)
    requires Head(p) == '/' && At(p, 1) == '/'
    ensures LineComment(p) == 2 + LineComment(p[2..])
  {
    var q := p[1..];
    assert q[0] == '/' && q[1..] == p[2..];
    assert LineComment(q) == 1 + LineComment(q[1..]);
  }

  lemma LineCommentRun(p: string)
    requires NUL !in p && Head(p) == '/' && At(p, 1) == '/'
    ensures LineComment(p) <= |p|
    ensures Inside(EndsIn(Outside, p)) <==> Inside(EndsIn(Outside, p[LineComment(p)..]))
  {
    var n, r := LineComment(p), p[2..];
    SlashesPassed(p);
    LineRun(r);
    TwoShifts(Outside, p);
    assert r[n - 2..] == p[n..];
  }

  lemma BlockCommentRun(p: string)
    requires NUL !in p && Head(p) == '/' && At(p, 1) == '*'
    ensures var n := BlockComment(p);
      Inside(EndsIn(Outside, p)) <==> n > |p| || Inside(EndsIn(Outside, p[n..]))
  {
    var n, q := BlockComment(p), p[1..];
    StarRun(q);
    TwoShifts(Outside, p);
    assert q[1..] == p[2..];
    assert n <= |p| ==> q[n - 1..] == p[n..];
  }

  lemma LiteralRun(p: string)
    requires NUL !in p && Head(p) == '\"'
    ensures var n := 1 + Literal(p[1..]);
      Inside(EndsIn(Outside, p)) <==> n > |p| || Inside(EndsIn(Outside, p[n..]))
  {
    var n, q := 1 + Literal(p[1..]), p[1..];
    QuotedRun(q);
    assert EndsIn(Outside, p) == EndsIn(Quoted, q);
    assert n <= |p| ==> q[n - 1..] == p[n..];
  }

  lemma OtherRun(p: string)
    requires Head(p) != NUL && p[0] != '\"' && !(p[0] == '/' && (At(p, 1) == '/' || At(p, 1) == '*'))
    ensures Inside(EndsIn(Outside, p)) <==> Inside(EndsIn(Outside, p[1..]))
  {
    var q := p[1..];
    assert EndsIn(Outside, p) == EndsIn(Shift(Outside, p[0]), q);
    if p[0] == '/' && q != [] {
      assert Shift(Slash, q[0]) == Shift(Outside, q[0]);
    }
  }

  /** After one step of the loop the scanner is outside again, or the loop has overrun and it is inside. */
  lemma StepRun(p: string)
    requires p != [] && NUL !in p
    ensures var n := Step(p).0;
      Inside(EndsIn(Outside, p)) <==> n > |p| || Inside(EndsIn(Outside, p[n..]))
  {
    if p[0] == '/' && At(p, 1) == '/' {
      LineCommentRun(p);
    } else if p[0] == '/' && At(p, 1) == '*' {
      BlockCommentRun(p);
    } else if p[0] == '\"' {
      LiteralRun(p);
    } else {
      OtherRun(p);
    }
  }

  /** The loop reads behind the terminating NUL exactly for a text that ends inside a literal or a block comment. */
  lemma {:induction false} OverrunExactly(p: string)
    requires NUL !in p
    ensures Minify(p).Done? <==> !Inside(EndsIn(Outside, p))
    decreases |p|
  {
    if p != [] {
      StepRun(p);
      var n := Step(p).0;
      if n <= |p| {
        OverrunExactly(p[n..]);
      }
    }
  }

  // What is kept, said by the same scanner.

  /**
   Literals are kept; comments and, outside both, the four blanks are not. A slash opens a comment when
   a slash or a star follows, which then belongs to the opening.
   */
  predicate Keeps(m: Mode, c: char, next: char)
  {
    match m
    case Quoted => true
    case Escaped => true
    case Outside => Solid(c) && !(c == '/' && (next == '/' || next == '*'))
    case Slash => Solid(c) && c != '/' && c != '*'
    case _ => false
  }

  predicate Solid(c: char)
  {
    c != ' ' && c != '\t' && c != '\r' && c != '\n'
  }

  function Filtered(m: Mode, p: string): (r: string)
    decreases |p|
  {
    if p == [] then ""
    else (if Keeps(m, p[0], At(p, 1)) then [p[0]] else "") + Filtered(Shift(m, p[0]), p[1..])
  }

  lemma FilterKeeps(m: Mode, p: string)
    requires p != [] && Keeps(m, p[0], At(p, 1))
    ensures Filtered(m, p) == [p[0]] + Filtered(Shift(m, p[0]), p[1..])
  {
  }

  lemma FilterDrops(m: Mode, p: string)
    requires p != [] && !Keeps(m, p[0], At(p, 1))
    ensures Filtered(m, p) == Filtered(Shift(m, p[0]), p[1..])
  {
  }

  lemma SplitOff(p: string, k: nat, n: nat, rest: string)
    requires k <= n <= |p|
    ensures p[..k] + (p[k..][..n - k] + rest) == p[..n] + rest && p[k..][n - k..] == p[n..]
  {
    assert p[..k] + p[k..][..n - k] == p[..n];
  }

  lemma PairKept(q: string)
    requires |q| > 1 && q[0] == '\\'
    ensures Filtered(Quoted, q) == q[..2] + Filtered(Quoted, q[2..])
  {
    FilterKeeps(Quoted, q);
    FilterKeeps(Escaped, q[1..]);
    assert q[1..][1..] == q[2..] && q[..2] == [q[0]] + [q[1]];
  }

  lemma OneKept(q: string)
    requires q != [] && q[0] != '\\'
    ensures Filtered(Quoted, q) == q[..1] + Filtered(if q[0] == '\"' then Outside else Quoted, q[1..])
  {
    FilterKeeps(Quoted, q);
    assert q[..1] == [q[0]];
  }

  lemma {:induction false} LiteralKept(q: string)
    requires NUL !in q && Literal(q) <= |q|
    ensures Filtered(Quoted, q) == q[..Literal(q)] + Filtered(Outside, q[Literal(q)..])
    decreases |q|
  {
    var n := Literal(q);
    if q[0] == '\\' {
      PairKept(q);
      LiteralKept(q[2..]);
      SplitOff(q, 2, n, Filtered(Outside, q[n..]));
    } else {
      OneKept(q);
      if q[0] != '\"' {
        LiteralKept(q[1..]);
        SplitOff(q, 1, n, Filtered(Outside, q[n..]));
      }
    }
  }

  lemma {:induction false} BlockDropped(q: string)
    requires NUL !in q && BlockComment(q) <= |q|
    ensures Filtered(Block, q) == Filtered(Outside, q[BlockComment(q)..])
    decreases |q|, 1
  {
    var n := BlockComment(q);
    FilterDrops(Block, q);
    if q[0] == '*' {
      StarDropped(q);
    } else {
      BlockDropped(q[1..]);
      assert q[1..][n - 1..] == q[n..];
    }
  }

  lemma {:induction false} StarDropped(q: string)
    requires NUL !in q && Head(q) == '*' && BlockComment(q) <= |q|
    ensures Filtered(Star, q[1..]) == Filtered(Outside, q[BlockComment(q)..])
    decreases |q|, 0
  {
    var n, rest := BlockComment(q), q[1..];
    FilterDrops(Star, rest);
    if rest[0] == '/' {
      assert n == 2 && rest[1..] == q[2..];
    } else if rest[0] == '*' {
      StarDropped(rest);
      assert rest[n - 1..] == q[n..];
    } else {
      BlockDropped(rest[1..]);
      assert rest[1..][n - 2..] == q[n..];
    }
  }

  lemma {:induction false} LineDropped(q: string)
    requires NUL !in q
    ensures LineComment(q) <= |q| && Filtered(Line, q) == Filtered(Outside, q[LineComment(q)..])
    decreases |q|
  {
    var n := LineComment(q);
    if q != [] {
      FilterDrops(Line, q);
      if q[0] == '\n' {
        FilterDrops(Outside, q);
        assert q[0..] == q;
      } else {
        LineDropped(q[1..]);
        assert q[1..][n - 1..] == q[n..];
      }
    }
  }

  lemma CommentDropped(p: string)
    requires NUL !in p && Head(p) == '/' && (At(p, 1) == '/' || At(p, 1) == '*')
    requires Step(p).0 <= |p|
    ensures Filtered(Outside, p) == Filtered(Outside, p[Step(p).0..])
  {
    var n, q := Step(p).0, p[1..];
    FilterDrops(Outside, p);
    FilterDrops(Slash, q);
    assert q[1..] == p[2..] && q[n - 1..] == p[n..];
    if q[0] == '/' {
      SlashesPassed(p);
      LineDropped(p[2..]);
      assert p[2..][n - 2..] == p[n..];
    } else {
      StarDropped(q);
    }
  }

  lemma OtherFiltered(p: string)
    requires p != [] && p[0] != '\"' && !(p[0] == '/' && (At(p, 1) == '/' || At(p, 1) == '*'))
    ensures Filtered(Outside, p) == (if Solid(p[0]) then [p[0]] else "") + Filtered(Outside, p[1..])
  {
    var q := p[1..];
    if p[0] == '/' && q != [] {
      assert Keeps(Slash, q[0], At(q, 1)) == Keeps(Outside, q[0], At(q, 1));
      assert Filtered(Slash, q) == Filtered(Outside, q);
    }
  }

  lemma LiteralFiltered(p: string)
    requires NUL !in p && Head(p) == '\"' && Step(p).0 <= |p|
    ensures Filtered(Outside, p) == p[..Step(p).0] + Filtered(Outside, p[Step(p).0..])
  {
    var n := Step(p).0;
    FilterKeeps(Outside, p);
    LiteralKept(p[1..]);
    assert p[..1] == [p[0]];
    SplitOff(p, 1, n, Filtered(Outside, p[n..]));
  }

  lemma StepFilters(p: string)
    requires p != [] && NUL !in p && Step(p).0 <= |p|
    ensures Filtered(Outside, p) == p[..Step(p).1] + Filtered(Outside, p[Step(p).0..])
  {
    if p[0] == '/' && (At(p, 1) == '/' || At(p, 1) == '*') {
      CommentDropped(p);
      assert p[..0] == "" && "" + Filtered(Outside, p[Step(p).0..]) == Filtered(Outside, p[Step(p).0..]);
    } else if p[0] == '\"' {
      LiteralFiltered(p);
    } else {
      OtherFiltered(p);
      assert p[..1] == [p[0]];
    }
  }

  /** Whatever the text, what is left of it is what the scanner keeps. */
  lemma {:induction false} MinifyFilters(p: string)
    requires NUL !in p && Minify(p).Done?
    ensures Minify(p).text == Filtered(Outside, p)
    decreases |p|
  {
    if p != [] {
      StepFilters(p);
      MinifyFilters(p[Step(p).0..]);
    }
  }

  /** A NUL-terminated text: its last cell and no other is NUL. */
  ghost predicate Terminated(a: array<char>)
    reads a
  {
    a.Length > 0 && a[a.Length - 1] == NUL && forall i :: 0 <= i < a.Length - 1 ==> a[i] != NUL
  }

  /** The unread text, unchanged since s was the whole of it. */
  ghost predicate Unread(a: array<char>, s: string, json: int)
    reads a
  {
    && a.Length == |s| + 1 && NUL !in s && 0 <= json <= |s|
    && (forall i :: json <= i < |s| ==> a[i] == s[i]) && a[|s|] == NUL
  }

  method PassLineComment(a: array<char>, ghost s: string, json0: int) returns (json: int)
    requires Unread(a, s, json0)
    ensures json0 <= json <= |s| && json - json0 == LineComment(s[json0..])
  {
    json := json0;
    while a[json] != NUL && a[json] != '\n'
      invariant json0 <= json <= |s|
      invariant LineComment(s[json0..]) == json - json0 + LineComment(s[json..])
      decreases a.Length - json
    {
      json := json + 1;
    }
  }

  method PassBlockComment(a: array<char>, ghost s: string, json0: int) returns (json: int)
    requires Unread(a, s, json0)
    ensures json - json0 == BlockComment(s[json0..])
  {
    json := json0;
    while a[json] != NUL && !(a[json] == '*' && a[json + 1] == '/')
      invariant json0 <= json <= |s|
      invariant BlockComment(s[json0..]) == json - json0 + BlockComment(s[json..])
      decreases a.Length - json
    {
      json := json + 1;
    }
    json := json + 2;
  }

  /** Behind pre, characters json0..json of the text have been moved down; the rest is unread. */
  ghost predicate Moved(a: array<char>, s: string, pre: string, json0: int, json: int)
    reads a
  {
    && Unread(a, s, json)
    && |pre| <= json0 <= json
    && a[..|pre| + json - json0] == pre + s[json0..json]
  }

  method CopyOne(a: array<char>, ghost s: string, ghost pre: string, ghost json0: int, json: int, into: int)
    requires Moved(a, s, pre, json0, json) && json < |s| && into == |pre| + json - json0
    modifies a
    ensures Moved(a, s, pre, json0, json + 1)
  {
    ghost var kept := a[..into];
    a[into] := a[json];
    assert a[..into + 1] == kept + [s[json]];
    assert s[json0..json + 1] == s[json0..json] + [s[json]];
  }

  lemma LiteralAt(s: string, k: nat)
    requires k < |s| && NUL !in s && s[k] != '\"'
    ensures Literal(s[k..]) == if s[k] != '\\' then 1 + Literal(s[k + 1..])
                               else if k + 1 < |s| then 2 + Literal(s[k + 2..]) else 3
  {
    if s[k] == '\\' && k + 1 < |s| {
      assert s[k..][2..] == s[k + 2..];
    }
  }

  /** The literal that is read from k on ends there. */
  ghost predicate ClosesAt(s: string, k: int, end: int)
  {
    0 <= k <= |s| && end == k + Literal(s[k..])
  }

  lemma ClosesStep(s: string, k: nat, end: int)
    requires k < |s| && NUL !in s && s[k] != '\"' && ClosesAt(s, k, end)
    ensures s[k] != '\\' ==> ClosesAt(s, k + 1, end)
    ensures s[k] == '\\' ==> if k + 1 < |s| then ClosesAt(s, k + 2, end) else end == k + 3
  {
    LiteralAt(s, k);
  }

  /** One character of a literal, or a backslash with the character after it. */
  method CopyEscaped(a: array<char>, ghost s: string, ghost pre: string, ghost json0: int, json: int, into: int,
                     ghost end: int)
    returns (n: int)
    requires Moved(a, s, pre, json0, json) && json < |s| && into == |pre| + json - json0 && s[json] != '\"'
    requires ClosesAt(s, json, end)
    modifies a
    ensures n >= 1
    ensures json + n <= |s| ==> Moved(a, s, pre, json0, json + n) && ClosesAt(s, json + n, end)
    ensures json + n > |s| ==> json + n == end
  {
    ClosesStep(s, json, end);
    n := 0;
    if a[json] == '\\' {
      CopyOne(a, s, pre, json0, json, into);
      n := 1;
      if a[json + 1] == NUL {
        // the source copies the NUL and goes on behind it
        return 3;
      }
    }
    CopyOne(a, s, pre, json0, json + n, into + n);
    n := n + 1;
  }

  /** The rest of a literal up to its quote or the end. */
  method CopyBody(a: array<char>, ghost s: string, ghost pre: string, ghost json0: int, json1: int, into1: int,
                  ghost end: int)
    returns (json: int, into: int)
    requires Moved(a, s, pre, json0, json1) && into1 == |pre| + json1 - json0 && ClosesAt(s, json1, end)
    modifies a
    ensures json - json1 == into - into1
    ensures if json <= |s| then Moved(a, s, pre, json0, json) && ClosesAt(s, json, end) else json == end
    ensures json < |s| ==> s[json] == '\"'
  {
    json, into := json1, into1;
    while a[json] != NUL && a[json] != '\"'
      invariant Moved(a, s, pre, json0, json) && json - json1 == into - into1 && ClosesAt(s, json, end)
      decreases a.Length - json
    {
      var n := CopyEscaped(a, s, pre, json0, json, into, end);
      json, into := json + n, into + n;
      if json >= a.Length {
        return;
      }
    }
  }

  /** A string literal moved down; the read index ends past the text when its quote is missing. */
  method CopyLiteral(a: array<char>, ghost s: string, json0: int, into0: int) returns (json: int, into: int)
    requires Unread(a, s, json0) && 0 <= into0 <= json0 < |s| && s[json0] == '\"'
    modifies a
    ensures json - json0 == into - into0 == 1 + Literal(s[json0 + 1..])
    ensures json <= |s| ==> Moved(a, s, old(a[..into0]), json0, json)
  {
    ghost var pre := a[..into0];
    CopyOne(a, s, pre, json0, json0, into0);
    json, into := CopyBody(a, s, pre, json0, json0 + 1, into0 + 1, json0 + 1 + Literal(s[json0 + 1..]));
    if json < a.Length {
      if a[json] == '\"' {
        CopyOne(a, s, pre, json0, json, into);
      }
      json, into := json + 1, into + 1;
    }
  }

  /** What the text still to come looks like after a step that passes and keeps so many characters of p. */
  ghost predicate Continues(p: string, kept: string, all: Minified, passed: nat, keep: nat)
  {
    if passed > |p| || keep > |p| then all == Overrun
    else all == Prepend(kept + p[..keep], Minify(p[passed..]))
  }

  lemma StepContinues(p: string, kept: string, all: Minified)
    requires Head(p) != NUL && all == Prepend(kept, Minify(p))
    ensures Continues(p, kept, all, Step(p).0, Step(p).1)
  {
    var (passed, keep) := Step(p);
    if passed <= |p| {
      Prepended(kept, p[..keep], Minify(p[passed..]));
    }
  }

  lemma ContinuesFrom(s: string, json0: nat, json: nat, kept: string, all: Minified, keep: nat, now: string)
    requires json0 <= |s| && keep <= json - json0 && Continues(s[json0..], kept, all, json - json0, keep)
    requires json <= |s| ==> now == kept + s[json0..json0 + keep]
    ensures if json > |s| then all == Overrun else all == Prepend(now, Minify(s[json..]))
  {
    if json <= |s| {
      assert s[json0..][json - json0..] == s[json..] && s[json0..][..keep] == s[json0..json0 + keep];
    }
  }

  /** One round of the loop: the read and the write index after passing the head of the unread text. */
  method Round(a: array<char>, ghost s: string, json0: int, into0: int) returns (json: int, into: int)
    requires Unread(a, s, json0) && 0 <= into0 <= json0 < |s|
    modifies a
    ensures json - json0 == Step(s[json0..]).0 && into - into0 == Step(s[json0..]).1
    ensures json <= |s| ==> Unread(a, s, json) && a[..into] == old(a[..into0]) + s[json0..json0 + (into - into0)]
  {
    json, into := json0, into0;
    ghost var p := s[json0..];
    assert p[0] == s[json0] && At(p, 1) == a[json0 + 1];
    if a[json] == ' ' || a[json] == '\t' || a[json] == '\r' || a[json] == '\n' {
      json := json + 1;
    } else if a[json] == '/' && a[json + 1] == '/' {
      json := PassLineComment(a, s, json);
    } else if a[json] == '/' && a[json + 1] == '*' {
      json := PassBlockComment(a, s, json);
    } else if a[json] == '\"' {
      assert p[1..] == s[json0 + 1..];
      json, into := CopyLiteral(a, s, json, into);
      assert json <= |s| ==> a[..into] == a[..into0] + s[json0..json];
    } else {
      a[into] := a[json];
      json, into := json + 1, into + 1;
    }
  }

  /** What the loop keeps: all is the final text, of which the first into characters are in place. */
  ghost predicate Going(a: array<char>, s: string, all: Minified, json: int, into: int)
    reads a
  {
    Unread(a, s, json) && 0 <= into <= json && all == Prepend(a[..into], Minify(s[json..]))
  }

  method Advance(a: array<char>, ghost s: string, ghost all: Minified, json0: int, into0: int)
    returns (json: int, into: int)
    requires Going(a, s, all, json0, into0) && json0 < |s|
    modifies a
    ensures json > json0
    ensures if json <= |s| then Going(a, s, all, json, into) else all == Overrun
  {
    ghost var kept := a[..into0];
    json, into := RoundContinues(a, s, all, json0, into0);
    ContinuesFrom(s, json0, json, kept, all, into - into0, if json <= |s| then a[..into] else "");
  }

  method RoundContinues(a: array<char>, ghost s: string, ghost all: Minified, json0: int, into0: int)
    returns (json: int, into: int)
    requires Going(a, s, all, json0, into0) && json0 < |s|
    modifies a
    ensures json > json0 && 0 <= into - into0 <= json - json0
    ensures Continues(s[json0..], old(a[..into0]), all, json - json0, into - into0)
    ensures json <= |s| ==> Unread(a, s, json) && a[..into] == old(a[..into0]) + s[json0..json0 + (into - into0)]
  {
    ghost var p := s[json0..];
    StepContinues(p, a[..into0], all);
    json, into := Round(a, s, json0, into0);
    assert json - json0 == Step(p).0 && into - into0 == Step(p).1;
  }

  /** The loop: into is where the minified text ends; ok is false when it would read behind the NUL. */
  method MinifyLoop(a: array<char>, ghost s: string, ghost all: Minified) returns (ok: bool, into: int)
    requires Going(a, s, all, 0, 0)
    modifies a
    ensures ok <==> all.Done?
    ensures ok ==> 0 <= into < a.Length && all == Done(a[..into])
  {
    var json := 0;
    into := 0;
    while a[json] != NUL
      invariant Going(a, s, all, json, into)
      decreases a.Length - json
    {
      json, into := Advance(a, s, all, json, into);
      if json >= a.Length {
        return false, into;
      }
    }
    Finished(s, json, a[..into], all);
    ok := true;
  }

  lemma Finished(s: string, json: nat, kept: string, all: Minified)
    requires json == |s| && all == Prepend(kept, Minify(s[json..]))
    ensures all == Done(kept)
  {
    assert s[json..] == "" && kept + "" == kept;
  }

  /**
   * cJSON_Minify in place; ok is false when the source would read behind the terminating NUL, which it does
   * exactly for a text that ends inside a literal or a block comment.
   */
  method MinifyInPlace(a: array<char>) returns (ok: bool)
    requires Terminated(a)
    modifies a
    ensures var min := Minify(old(a[..a.Length - 1]));
      && (ok <==> min.Done?)
      && (ok <==> !Inside(EndsIn(Outside, old(a[..a.Length - 1]))))
      && (ok ==> |min.text| < a.Length && a[..|min.text|] == min.text && a[|min.text|] == NUL
                 && min.text == Filtered(Outside, old(a[..a.Length - 1])))
  {
    ghost var s := a[..a.Length - 1];
    ghost var all := Minify(s);
    OverrunExactly(s);
    assert s[0..] == s && all == Prepend("", all);
    var into;
    ok, into := MinifyLoop(a, s, all);
    if ok {
      MinifyFilters(s);
      ghost var text := a[..into];
      a[into] := NUL;
      assert a[..into] == text;
    }
  }
}
