/** What the printers write: one document of the grammar, with the shortest escapes and the blanks of the layout. */
module JsonLayout {
  import opened Decimal
  import opened JsonText
  import opened JsonParse
  import opened JsonRoundTrip
  import opened JsonTextFacts
  import opened JsonUnicode
  import opened JsonGrammar

  // Which spellings the printers choose.

  /** A line break and the tabs of the next line. */
  ghost predicate Breaks(s: string, tabs: int)
  {
    s == "\n" + Repeat('\t', if tabs > 0 then tabs else 0)
  }

  /**
   A character is escaped only when it is a quote, a backslash or below the space; by a short escape if there is
   one, else by four digits in lower case.
   */
  ghost predicate Shortest(x: Piece)
  {
    match x
    case Itself(c) => c >= ' '
    case Short(mark) => mark == '\"' || mark == '\\' || mark in "bfnrt"
    case Unicode(e, u) =>
      u < 32 && (forall m :: m in SHORT ==> SHORT[m] as int != u) && |e| == 6 && forall i :: 2 <= i < 6 ==> !('A' <= e[i] <= 'F')
    case _ => false
  }

  ghost predicate AllShortest(xs: seq<Piece>)
  {
    forall i :: 0 <= i < |xs| ==> Shortest(xs[i])
  }

  /**
   The layout at a nesting depth. Formatted: the items of an array on one line, a space after each comma; each
   member of an object on a line of its own, one tab deeper than the object, a tab after its colon; the closing
   brace on a line as deep as the object, or one less when the object is empty. Unformatted: no blanks at all.
   */
  ghost predicate Laid(d: Doc, depth: nat, fmt: bool)
    decreases d
  {
    match d
    case Word(_) => true
    case Num(minus, ds) => minus ==> Horner(10, ds) > 0
    case Literal(xs) => AllShortest(xs)
    case List(items, inside) =>
      inside == "" && forall i :: 0 <= i < |items| ==>
        && items[i].before == (if fmt && i > 0 then " " else "") && items[i].after == ""
        && Laid(items[i].doc, depth + 1, fmt)
    case Map(entries, inside) =>
      && (if fmt then Breaks(inside, depth - 1) else inside == "")
      && forall i :: 0 <= i < |entries| ==>
           && (if fmt then Breaks(entries[i].before, depth + 1) else entries[i].before == "")
           && AllShortest(entries[i].name)
           && entries[i].beforeColon == "" && entries[i].afterColon == (if fmt then "\t" else "")
           && Laid(entries[i].doc, depth + 1, fmt)
           && if fmt && i == |entries| - 1 then Breaks(entries[i].after, depth) else entries[i].after == ""
  }

  // The document that is printed.

  ghost function PieceOf(c: char): Piece
  {
    if !NeedsEscape(c) then Itself(c)
    else if Mark(c) != NUL then Short(Mark(c))
    else Unicode("\\u00" + Hex2(c as int), c as nat)
  }

  ghost function PiecesOf(s: string): seq<Piece>
  {
    seq(|s|, i requires 0 <= i < |s| => PieceOf(s[i]))
  }

  ghost function DocOf(v: Json, depth: nat, fmt: bool): Doc
    decreases v
  {
    match v
    case Null => Word("null")
    case False => Word("false")
    case True => Word("true")
    case Number(n) => Num(n < 0, Digits(if n < 0 then -n else n, 10))
    case Str(s) => Literal(PiecesOf(s))
    case Arr(items) =>
      List(seq(|items|, i requires 0 <= i < |items| =>
             Item(if i > 0 then If(fmt, " ") else "", DocOf(items[i], depth + 1, fmt), "")), "")
    case Obj(ms) =>
      Map(seq(|ms|, i requires 0 <= i < |ms| => EntryOf(ms[i], depth, fmt, i == |ms| - 1)),
          If(fmt, "\n" + Tabs(depth - 1)))
  }

  ghost function EntryOf(m: Member, depth: nat, fmt: bool, last: bool): Entry
    decreases m
  {
    Entry(If(fmt, "\n" + Tabs(depth + 1)), PiecesOf(m.name), "", If(fmt, "\t"),
          DocOf(m.value, depth + 1, fmt), if last then If(fmt, "\n" + Tabs(depth)) else "")
  }

  lemma {:induction false} TabsAre(n: int)
    ensures Tabs(n) == Repeat('\t', if n > 0 then n else 0)
    decreases n
  {
    if n > 0 {
      TabsAre(n - 1);
      assert ['\t'] + Repeat('\t', n - 1) == Repeat('\t', n);
    }
  }

  lemma TabsBreak(n: int)
    ensures Breaks("\n" + Tabs(n), n) && Blank("\n" + Tabs(n))
  {
    TabsAre(n);
  }

  // Strings.

  lemma HexOf(c: char)
    requires NUL < c < ' '
    ensures var e := "\\u00" + Hex2(c as int);
      IsEscapeOf(e, c as nat) && |e| == 6 && forall i :: 2 <= i < 6 ==> !('A' <= e[i] <= 'F')
  {
    var n := c as int;
    var e := "\\u00" + Hex2(n);
    var h := e[2..];
    assert h == ['0', '0', Digit(n / 16), Digit(n % 16)];
    assert FourDigits(h, 0, 0, n / 16, n % 16);
    assert HexUnit(h, n);
  }

  ghost predicate PieceRight(x: Piece, c: char)
  {
    WellFormed(x) && Shortest(x) && Means(x, [c]) && Written(x) == EscapeChar(c)
  }

  lemma HexIsRight(c: char)
    requires NUL < c < ' ' && Mark(c) == NUL
    ensures PieceRight(Unicode("\\u00" + Hex2(c as int), c as nat), c)
  {
    HexOf(c);
    TranscodeDecodes(c as nat, "");
    assert Transcode(c as nat) + "" == [c];
  }

  lemma PieceIsRight(c: char)
    requires c != NUL
    ensures PieceRight(PieceOf(c), c)
  {
    if NeedsEscape(c) && Mark(c) == NUL {
      HexIsRight(c);
    } else if NeedsEscape(c) {
      assert PieceRight(Short(Mark(c)), c);
    } else {
      assert PieceRight(Itself(c), c);
    }
  }

  lemma {:induction false} PiecesMean(s: string)
    requires NUL !in s
    ensures AllMean(PiecesOf(s), s) && AllWritten(PiecesOf(s)) == Escape(s)
    decreases |s|
  {
    if s != [] {
      PieceIsRight(s[0]);
      PiecesMean(s[1..]);
      assert PiecesOf(s)[1..] == PiecesOf(s[1..]);
      MeansInFront(PiecesOf(s), [s[0]], s[1..]);
      assert [s[0]] + s[1..] == s;
    }
  }

  lemma PiecesAreRight(s: string)
    requires NUL !in s
    ensures var xs := PiecesOf(s);
      AllWellFormed(xs) && AllShortest(xs) && AllMean(xs, s) && AllWritten(xs) == Escape(s)
  {
    PiecesMean(s);
    forall i | 0 <= i < |s| ensures WellFormed(PieceOf(s[i])) && Shortest(PieceOf(s[i])) {
      PieceIsRight(s[i]);
    }
  }

  lemma QuoteIsLiteral(s: string, rest: string)
    requires NUL !in s
    ensures Quote(s) + rest == LiteralText(PiecesOf(s), rest)
  {
    PiecesAreRight(s);
  }

  // Numbers.

  lemma NumeralIsDigits(n: nat)
    ensures var ds := Digits(n, 10);
      && |ds| >= 1 && (|ds| > 1 ==> ds[0] != 0) && (forall i :: 0 <= i < |ds| ==> ds[i] < 10) && Horner(10, ds) == n
      && DigitsText(ds) == Numeral(n, 10)
  {
    NumeralMeans(n, 10);
    var ds := Digits(n, 10);
    assert forall d: nat :: d < 10 ==> "0123456789"[d] == "0123456789abcdef"[d];
  }

  // The document says the value, and its blanks are those of the layout.

  ghost predicate Right(d: Doc, v: Json, depth: nat, fmt: bool)
  {
    WellFormedDoc(d) && Says(d, v) && Laid(d, depth, fmt)
  }

  lemma ListIsRight(v: Json, depth: nat, fmt: bool)
    requires v.Arr?
    requires forall i :: 0 <= i < |v.items| ==> Right(DocOf(v.items[i], depth + 1, fmt), v.items[i], depth + 1, fmt)
    ensures Right(DocOf(v, depth, fmt), v, depth, fmt)
  {
    var d := DocOf(v, depth, fmt);
    assert forall i :: 0 <= i < |v.items| ==> d.items[i].doc == DocOf(v.items[i], depth + 1, fmt);
  }

  ghost predicate EntryRight(x: Entry, m: Member, depth: nat, fmt: bool, last: bool)
  {
    && Blank(x.before) && Blank(x.afterColon) && Blank(x.after)
    && AllWellFormed(x.name) && AllShortest(x.name) && AllMean(x.name, m.name)
    && Right(x.doc, m.value, depth + 1, fmt)
    && (if fmt then Breaks(x.before, depth + 1) else x.before == "")
    && x.beforeColon == "" && x.afterColon == (if fmt then "\t" else "")
    && if fmt && last then Breaks(x.after, depth) else x.after == ""
  }

  lemma EntryIsRight(m: Member, depth: nat, fmt: bool, last: bool)
    requires NUL !in m.name && Right(DocOf(m.value, depth + 1, fmt), m.value, depth + 1, fmt)
    ensures EntryRight(EntryOf(m, depth, fmt, last), m, depth, fmt, last)
  {
    TabsBreak(depth + 1);
    TabsBreak(depth);
    PiecesAreRight(m.name);
  }

  lemma MapIsRight(v: Json, depth: nat, fmt: bool)
    requires v.Obj? && Printable(v)
    requires forall i :: 0 <= i < |v.members| ==>
               Right(DocOf(v.members[i].value, depth + 1, fmt), v.members[i].value, depth + 1, fmt)
    ensures Right(DocOf(v, depth, fmt), v, depth, fmt)
  {
    var d := DocOf(v, depth, fmt);
    TabsBreak(depth - 1);
    forall i | 0 <= i < |v.members|
      ensures EntryRight(d.entries[i], v.members[i], depth, fmt, i == |v.members| - 1)
    {
      EntryIsRight(v.members[i], depth, fmt, i == |v.members| - 1);
    }
  }

  lemma {:induction false} DocIsRight(v: Json, depth: nat, fmt: bool)
    requires Printable(v)
    ensures Right(DocOf(v, depth, fmt), v, depth, fmt)
    decreases v
  {
    match v
    case Number(n) => NumeralIsDigits(if n < 0 then -n else n);
    case Str(s) => PiecesAreRight(s);
    case Arr(items) =>
      forall i | 0 <= i < |items| ensures Right(DocOf(items[i], depth + 1, fmt), items[i], depth + 1, fmt) {
        DocIsRight(items[i], depth + 1, fmt);
      }
      ListIsRight(v, depth, fmt);
    case Obj(ms) =>
      forall i | 0 <= i < |ms| ensures Right(DocOf(ms[i].value, depth + 1, fmt), ms[i].value, depth + 1, fmt) {
        DocIsRight(ms[i].value, depth + 1, fmt);
      }
      MapIsRight(v, depth, fmt);
    case _ =>
  }

  // Its spelling is the text.

  lemma {:induction false} DocIsText(v: Json, depth: nat, fmt: bool, rest: string)
    requires Printable(v)
    ensures WellFormedDoc(DocOf(v, depth, fmt))
    ensures Text(v, depth, fmt) + rest == Spelled(DocOf(v, depth, fmt), rest)
    decreases v, 2, 0
  {
    DocIsRight(v, depth, fmt);
    match v
    case Number(n) => NumberIsText(n, rest);
    case Str(s) => QuoteIsLiteral(s, rest);
    case Arr(items) => ListIsText(v, depth, fmt, rest);
    case Obj(ms) => MapIsText(v, depth, fmt, rest);
    case _ =>
  }

  lemma NumberIsText(n: int, rest: string)
    requires Printable(Number(n))
    ensures WellFormedDoc(DocOf(Number(n), 0, false))
    ensures Signed(n) + rest == Spelled(DocOf(Number(n), 0, false), rest)
  {
    DocIsRight(Number(n), 0, false);
    NumeralIsDigits(if n < 0 then -n else n);
    Regroup3(if n < 0 then "-" else "", Numeral(if n < 0 then -n else n, 10), rest);
  }

  lemma {:induction false} ItemsAreText(v: Json, i: nat, depth: nat, fmt: bool, rest: string)
    requires v.Arr? && Printable(v) && i < |v.items| && WellFormedDoc(DocOf(v, depth, fmt))
    ensures (if i > 0 then If(fmt, " ") else "") + (ItemsText(v, i, depth, fmt) + rest)
         == ItemsSpelled(DocOf(v, depth, fmt), i, rest)
    decreases v, 0, |v.items| - i
  {
    var d, x := DocOf(v, depth, fmt), v.items[i];
    var before := if i > 0 then If(fmt, " ") else "";
    if i + 1 < |v.items| {
      var next := ItemsText(v, i + 1, depth, fmt);
      ItemsAreText(v, i + 1, depth, fmt, rest);
      var more := "," + ItemsSpelled(d, i + 1, rest);
      DocIsText(x, depth + 1, fmt, more);
      Regroup5(Text(x, depth + 1, fmt), ",", If(fmt, " "), next, rest);
      assert "" + more == more;
    } else {
      DocIsText(x, depth + 1, fmt, rest);
      assert "" + rest == rest;
    }
  }

  lemma {:induction false} ListIsText(v: Json, depth: nat, fmt: bool, rest: string)
    requires v.Arr? && Printable(v) && WellFormedDoc(DocOf(v, depth, fmt))
    ensures Text(v, depth, fmt) + rest == Spelled(DocOf(v, depth, fmt), rest)
    decreases v, 1, 0
  {
    if v.items != [] {
      var all := ItemsText(v, 0, depth, fmt);
      ItemsAreText(v, 0, depth, fmt, "]" + rest);
      Regroup4("[", all, "]", rest);
      assert "" + (all + ("]" + rest)) == all + ("]" + rest);
    } else {
      assert "[]" + rest == "[" + ("" + ("]" + rest));
    }
  }

  lemma EmptyMapIsText(depth: nat, fmt: bool, rest: string)
    ensures Text(Obj([]), depth, fmt) + rest == "{" + (If(fmt, "\n" + Tabs(depth - 1)) + ("}" + rest))
  {
    Regroup4("{", If(fmt, "\n" + Tabs(depth - 1)), "}", rest);
  }

  lemma {:induction false} MapIsText(v: Json, depth: nat, fmt: bool, rest: string)
    requires v.Obj? && Printable(v) && WellFormedDoc(DocOf(v, depth, fmt))
    ensures Text(v, depth, fmt) + rest == Spelled(DocOf(v, depth, fmt), rest)
    decreases v, 1, 0
  {
    if v.members == [] {
      EmptyMapIsText(depth, fmt, rest);
    } else {
      EntriesAreText(v, 0, depth, fmt, "}" + rest);
      Regroup6("{", If(fmt, "\n"), MembersText(v, 0, depth + 1, fmt), If(fmt, Tabs(depth)), "}", rest);
    }
  }

  lemma CommaJoins(nl: string, t: string, next: string, end: string, later: string)
    requires nl + (next + end) == later
    ensures nl + (t + "," + nl + next + end) == nl + (t + ("" + ("," + later)))
  {
    Regroup5(t, ",", nl, next, end);
    assert "" + ("," + later) == "," + later;
  }

  lemma EndJoins(nl: string, t: string, tabs: string, rest: string)
    ensures nl + (t + nl + (tabs + rest)) == nl + (t + ((nl + tabs) + rest))
  {
    Regroup3(t, nl, tabs + rest);
    Regroup3(nl, tabs, rest);
  }

  /** The members from the i-th on, as they stand in the text, with the end of the object. */
  ghost predicate EntriesMatch(v: Json, i: nat, depth: nat, fmt: bool, rest: string)
    requires v.Obj? && i < |v.members| && WellFormedDoc(DocOf(v, depth, fmt))
  {
    If(fmt, "\n") + (MembersText(v, i, depth + 1, fmt) + (If(fmt, Tabs(depth)) + rest))
    == EntriesSpelled(DocOf(v, depth, fmt), i, rest)
  }

  /** The member's value matches in front of what follows it. */
  ghost predicate ValueMatches(m: Member, depth: nat, fmt: bool, more: string)
    requires WellFormedDoc(DocOf(m.value, depth + 1, fmt))
  {
    Text(m.value, depth + 1, fmt) + more == Spelled(DocOf(m.value, depth + 1, fmt), more)
  }

  lemma LastEntryMatches(v: Json, i: nat, depth: nat, fmt: bool, rest: string)
    requires v.Obj? && Printable(v) && i + 1 == |v.members| && WellFormedDoc(DocOf(v, depth, fmt))
    requires WellFormedDoc(DocOf(v.members[i].value, depth + 1, fmt))
    requires ValueMatches(v.members[i], depth, fmt, If(fmt, "\n" + Tabs(depth)) + rest)
    ensures EntriesMatch(v, i, depth, fmt, rest)
  {
    var d, m, t, more := DocOf(v, depth, fmt), v.members[i], MemberText(v, i, depth + 1, fmt), If(fmt, "\n" + Tabs(depth)) + rest;
    EntryIsText(v, i, depth, fmt, true, more);
    EndJoins(If(fmt, "\n"), t, If(fmt, Tabs(depth)), rest);
    assert If(fmt, "\n") + If(fmt, Tabs(depth)) == If(fmt, "\n" + Tabs(depth));
    assert EntriesSpelled(d, i, rest) == NameSpelled(d.entries[i], Spelled(d.entries[i].doc, more));
  }

  lemma EntryMatches(v: Json, i: nat, depth: nat, fmt: bool, rest: string, later: string)
    requires v.Obj? && Printable(v) && i + 1 < |v.members| && WellFormedDoc(DocOf(v, depth, fmt))
    requires WellFormedDoc(DocOf(v.members[i].value, depth + 1, fmt))
    requires EntriesMatch(v, i + 1, depth, fmt, rest) && later == EntriesSpelled(DocOf(v, depth, fmt), i + 1, rest)
    requires ValueMatches(v.members[i], depth, fmt, "" + ("," + later))
    ensures EntriesMatch(v, i, depth, fmt, rest)
  {
    var d, m, t, more := DocOf(v, depth, fmt), v.members[i], MemberText(v, i, depth + 1, fmt), "" + ("," + later);
    EntryIsText(v, i, depth, fmt, false, more);
    CommaJoins(If(fmt, "\n"), t, MembersText(v, i + 1, depth + 1, fmt), If(fmt, Tabs(depth)) + rest, later);
    assert EntriesSpelled(d, i, rest) == NameSpelled(d.entries[i], Spelled(d.entries[i].doc, more));
  }

  lemma {:induction false} LastEntryIsText(v: Json, i: nat, depth: nat, fmt: bool, rest: string)
    requires v.Obj? && Printable(v) && i + 1 == |v.members| && WellFormedDoc(DocOf(v, depth, fmt))
    ensures EntriesMatch(v, i, depth, fmt, rest)
    decreases v, 0, 0
  {
    var m, more := v.members[i], If(fmt, "\n" + Tabs(depth)) + rest;
    DocIsText(m.value, depth + 1, fmt, more);
    assert ValueMatches(m, depth, fmt, more);
    LastEntryMatches(v, i, depth, fmt, rest);
  }

  lemma {:induction false} NextEntryIsText(v: Json, i: nat, depth: nat, fmt: bool, rest: string)
    requires v.Obj? && Printable(v) && i + 1 < |v.members| && WellFormedDoc(DocOf(v, depth, fmt))
    requires EntriesMatch(v, i + 1, depth, fmt, rest)
    ensures EntriesMatch(v, i, depth, fmt, rest)
    decreases v, 0, 0
  {
    var m, later := v.members[i], EntriesSpelled(DocOf(v, depth, fmt), i + 1, rest);
    var more := "" + ("," + later);
    DocIsText(m.value, depth + 1, fmt, more);
    assert ValueMatches(m, depth, fmt, more);
    EntryMatches(v, i, depth, fmt, rest, later);
  }

  lemma {:induction false} EntriesAreText(v: Json, i: nat, depth: nat, fmt: bool, rest: string)
    requires v.Obj? && Printable(v) && i < |v.members| && WellFormedDoc(DocOf(v, depth, fmt))
    ensures EntriesMatch(v, i, depth, fmt, rest)
    decreases v, 0, |v.members| - i
  {
    if i + 1 < |v.members| {
      EntriesAreText(v, i + 1, depth, fmt, rest);
      NextEntryIsText(v, i, depth, fmt, rest);
    } else {
      LastEntryIsText(v, i, depth, fmt, rest);
    }
  }

  lemma NameJoins(nl: string, tabs: string, name: string, tab: string, value: string, more: string, colon: string)
    requires colon == "" + (":" + (tab + (value + more)))
    ensures nl + (tabs + name + ":" + tab + value + more) == (nl + tabs) + (name + colon)
  {
    assert colon == ":" + (tab + (value + more));
    Regroup6(tabs, name, ":", tab, value, more);
    Regroup3(nl, tabs, name + colon);
  }

  /** One member with what follows it. */
  lemma EntryIsText(v: Json, i: nat, depth: nat, fmt: bool, last: bool, more: string)
    requires v.Obj? && Printable(v) && i < |v.members|
    requires WellFormedDoc(DocOf(v.members[i].value, depth + 1, fmt))
    requires Text(v.members[i].value, depth + 1, fmt) + more == Spelled(DocOf(v.members[i].value, depth + 1, fmt), more)
    ensures var m := v.members[i];
      If(fmt, "\n") + (MemberText(v, i, depth + 1, fmt) + more) ==
      NameSpelled(EntryOf(m, depth, fmt, last), Spelled(DocOf(m.value, depth + 1, fmt), more))
  {
    var m := v.members[i];
    var value, tab, tabs := Text(m.value, depth + 1, fmt), If(fmt, "\t"), If(fmt, Tabs(depth + 1));
    var colon := "" + (":" + (tab + (value + more)));
    NameJoins(If(fmt, "\n"), tabs, Quote(m.name), tab, value, more, colon);
    QuoteIsLiteral(m.name, colon);
    assert If(fmt, "\n") + tabs == If(fmt, "\n" + Tabs(depth + 1));
  }

  /**
   What is printed of any value is a document of the grammar that says it, laid out as described, with what
   follows it.
   */
  lemma PrintsDocument(v: Json, depth: nat, fmt: bool, rest: string) returns (d: Doc)
    requires Printable(v)
    ensures WellFormedDoc(d) && Says(d, v) && Laid(d, depth, fmt)
    ensures Text(v, depth, fmt) + rest == Spelled(d, rest)
  {
    d := DocOf(v, depth, fmt);
    DocIsRight(v, depth, fmt);
    DocIsText(v, depth, fmt, rest);
  }
}
