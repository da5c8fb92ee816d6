/**
 JSON documents by the grammar of RFC 8259, spelled with any blanks: the parser reads each as its value, and
 the printers write one, with blanks where the layout has them.
 */
module JsonGrammar {
  import opened Decimal
  import opened JsonText
  import opened JsonParse
  import opened JsonRoundTrip
  import opened JsonUnicode

  /** What a document is spelled with; the strings in an item or an entry are its blanks. */
  datatype Doc =
    | Word(w: string)
    | Num(minus: bool, ds: seq<nat>)
    | Literal(xs: seq<Piece>)
    | List(items: seq<Item>, inside: string)
    | Map(entries: seq<Entry>, inside: string)

  datatype Item = Item(before: string, doc: Doc, after: string)

  datatype Entry =
    Entry(before: string, name: seq<Piece>, beforeColon: string, afterColon: string, doc: Doc, after: string)

  // The text of a document, with what follows it.

  ghost function LiteralText(xs: seq<Piece>, rest: string): string
  {
    "\"" + (AllWritten(xs) + ("\"" + rest))
  }

  ghost function Spelled(d: Doc, rest: string): string
    requires WellFormedDoc(d)
    decreases d, 1, 0
  {
    match d
    case Word(w) => w + rest
    case Num(minus, ds) => (if minus then "-" else "") + (DigitsText(ds) + rest)
    case Literal(xs) => LiteralText(xs, rest)
    case List(items, inside) => "[" + if items == [] then inside + ("]" + rest) else ItemsSpelled(d, 0, "]" + rest)
    case Map(entries, inside) => "{" + if entries == [] then inside + ("}" + rest) else EntriesSpelled(d, 0, "}" + rest)
  }

  ghost function ItemsSpelled(d: Doc, i: nat, rest: string): string
    requires WellFormedDoc(d) && d.List? && i < |d.items|
    decreases d, 0, |d.items| - i
  {
    var x := d.items[i];
    x.before + Spelled(x.doc, x.after + if i + 1 < |d.items| then "," + ItemsSpelled(d, i + 1, rest) else rest)
  }

  ghost function EntriesSpelled(d: Doc, i: nat, rest: string): string
    requires WellFormedDoc(d) && d.Map? && i < |d.entries|
    decreases d, 0, |d.entries| - i
  {
    var x := d.entries[i];
    var more := x.after + if i + 1 < |d.entries| then "," + EntriesSpelled(d, i + 1, rest) else rest;
    NameSpelled(x, Spelled(x.doc, more))
  }

  /** An entry up to its value, which begins the rest. */
  ghost function NameSpelled(x: Entry, rest: string): string
  {
    x.before + LiteralText(x.name, x.beforeColon + (":" + (x.afterColon + rest)))
  }

  ghost function Value(minus: bool, ds: seq<nat>): int
  {
    var n: int := Horner(10, ds);
    if minus then -n else n
  }

  /** Blanks are the characters up to the space, of which the grammar has space, tab, newline and return. */
  ghost predicate Blank(s: string)
  {
    forall i :: 0 <= i < |s| ==> 1 <= s[i] as int <= 32
  }

  ghost predicate AllWellFormed(xs: seq<Piece>)
  {
    forall i :: 0 <= i < |xs| ==> WellFormed(xs[i])
  }

  ghost predicate WellFormedDoc(d: Doc)
  {
    match d
    case Word(w) => w == "null" || w == "false" || w == "true"
    case Num(minus, ds) =>
      && |ds| >= 1 && (|ds| > 1 ==> ds[0] != 0) && (forall i :: 0 <= i < |ds| ==> ds[i] < 10)
      && -0x8000_0000 <= Value(minus, ds) <= 0x7FFF_FFFF
    case Literal(xs) => AllWellFormed(xs)
    case List(items, inside) =>
      Blank(inside) && forall i :: 0 <= i < |items| ==>
        Blank(items[i].before) && WellFormedDoc(items[i].doc) && Blank(items[i].after)
    case Map(entries, inside) =>
      Blank(inside) && forall i :: 0 <= i < |entries| ==>
        && Blank(entries[i].before) && AllWellFormed(entries[i].name) && Blank(entries[i].beforeColon)
        && Blank(entries[i].afterColon) && WellFormedDoc(entries[i].doc) && Blank(entries[i].after)
  }

  /** What a document says. */
  ghost predicate Says(d: Doc, v: Json)
  {
    match d
    case Word(w) => v == if w == "null" then Null else if w == "true" then True else False
    case Num(minus, ds) => v == Number(Value(minus, ds))
    case Literal(xs) => v.Str? && AllMean(xs, v.s)
    case List(items, _) =>
      v.Arr? && |v.items| == |items| && forall i :: 0 <= i < |items| ==> Says(items[i].doc, v.items[i])
    case Map(entries, _) =>
      v.Obj? && |v.members| == |entries| && forall i :: 0 <= i < |entries| ==>
        AllMean(entries[i].name, v.members[i].name) && Says(entries[i].doc, v.members[i].value)
  }

  // Reading.

  lemma {:induction false} BlanksSkipped(s: string, q: string)
    requires Blank(s)
    ensures Skip(s + q) == Skip(q)
    decreases |s|
  {
    if s == [] {
      assert s + q == q;
    } else {
      assert (s + q)[1..] == s[1..] + q;
      BlanksSkipped(s[1..], q);
    }
  }

  lemma BlankStops(s: string, c: char, q: string)
    requires Blank(s) && (c == ',' || c == ']' || c == '}')
    ensures Stops(s + ([c] + q)) && Skip(s + ([c] + q)) == [c] + q
  {
    BlanksSkipped(s, [c] + q);
    if s != [] {
      assert (s + ([c] + q))[0] == s[0];
    }
  }

  lemma NaturalParses(s: string, n: nat, rest: string)
    requires s != "" && AllDigits(s) && Scanned(0, s) == n && (|s| > 1 ==> s[0] != '0')
    requires !IsDigit(Head(rest))
    ensures var q := s + rest;
      var q0 := if Head(q) == '0' then q[1..] else q;
      && IsDigit(Head(q))
      && (if '1' <= Head(q0) <= '9' then ScanDigits(0, q0) else (0, q0)) == (n, rest)
  {
    if s[0] == '0' {
      assert (s + rest)[1..] == rest;
      assert s[1..] == "";
    } else {
      DigitsScanBack(0, s, rest);
    }
  }

  lemma DigitsParse(ds: seq<nat>, rest: string)
    requires |ds| >= 1 && (|ds| > 1 ==> ds[0] != 0) && (forall i :: 0 <= i < |ds| ==> ds[i] < 10)
    requires !IsDigit(Head(rest))
    ensures var q := DigitsText(ds) + rest;
      var q0 := if Head(q) == '0' then q[1..] else q;
      && IsDigit(Head(q))
      && (if '1' <= Head(q0) <= '9' then ScanDigits(0, q0) else (0, q0)) == (Horner(10, ds), rest)
  {
    DigitsScanned(ds);
    DecimalDigit(ds[0]);
    NaturalParses(DigitsText(ds), Horner(10, ds), rest);
  }

  lemma SignedParses(minus: bool, q: string, m: int, rest: string)
    requires IsDigit(Head(q)) && !IsDigit(Head(rest))
    requires var q0 := if Head(q) == '0' then q[1..] else q;
      (if '1' <= Head(q0) <= '9' then ScanDigits(0, q0) else (0, q0)) == (m, rest)
    ensures var p, n := (if minus then "-" else "") + q, if minus then -m else m;
      && (Head(p) == '-' || IsDigit(Head(p)))
      && ParseNumber(p) == (if GoesOn(rest) || !IsInt32(n) then Inexact else Ok(n, rest))
  {
    var p := (if minus then "-" else "") + q;
    if minus {
      assert p[1..] == q && p[0] == '-';
    } else {
      assert p == q;
    }
  }

  /** A fraction or an exponent begins. */
  ghost predicate GoesOn(rest: string)
  {
    rest != [] && (rest[0] == 'e' || rest[0] == 'E' || (rest[0] == '.' && |rest| > 1 && '0' <= rest[1] <= '9'))
  }

  /** An integer is read as its value; what has a fraction, an exponent or more than 32 bits is told apart. */
  lemma NumberMeans(minus: bool, ds: seq<nat>, rest: string)
    requires |ds| >= 1 && (|ds| > 1 ==> ds[0] != 0) && (forall i :: 0 <= i < |ds| ==> ds[i] < 10)
    requires !IsDigit(Head(rest))
    ensures ParseValue((if minus then "-" else "") + (DigitsText(ds) + rest)) ==
            if GoesOn(rest) || !(-0x8000_0000 <= Value(minus, ds) <= 0x7FFF_FFFF) then Inexact
            else Ok(Number(Value(minus, ds)), rest)
  {
    DigitsParse(ds, rest);
    SignedParses(minus, DigitsText(ds) + rest, Horner(10, ds), rest);
  }

  lemma NumParses(d: Doc, v: Json, rest: string)
    requires d.Num? && WellFormedDoc(d) && Says(d, v) && Stops(rest)
    ensures ParseValue(Spelled(d, rest)) == Ok(v, rest)
  {
    NumberMeans(d.minus, d.ds, rest);
  }

  /** The bytes of a piece are unique. */
  lemma MeansOne(x: Piece, b: string, c: string)
    requires Means(x, b) && Means(x, c)
    ensures b == c
  {
    if x.Unicode? {
      OnlyTranscode(b, x.u, "");
      OnlyTranscode(c, x.u, "");
    }
  }

  lemma {:induction false} AllMeanOne(xs: seq<Piece>, s: string, t: string)
    requires AllMean(xs, s) && AllMean(xs, t)
    ensures s == t
    decreases |xs|
  {
    if xs != [] {
      var j: nat :| j <= |s| && Means(xs[0], s[..j]) && AllMean(xs[1..], s[j..]);
      var k: nat :| k <= |t| && Means(xs[0], t[..k]) && AllMean(xs[1..], t[k..]);
      MeansOne(xs[0], s[..j], t[..k]);
      AllMeanOne(xs[1..], s[j..], t[k..]);
      assert s == s[..j] + s[j..] && t == t[..k] + t[k..];
    }
  }

  lemma LiteralParses(xs: seq<Piece>, s: string, rest: string)
    requires AllWellFormed(xs) && AllMean(xs, s)
    ensures ParseString(LiteralText(xs, rest)) == Ok(s, rest)
  {
    LiteralMeans(xs, rest);
    AllMeanOne(xs, s, ParseString(LiteralText(xs, rest)).value);
  }

  lemma WordParses(d: Doc, v: Json, rest: string)
    requires d.Word? && WellFormedDoc(d) && Says(d, v)
    ensures ParseValue(Spelled(d, rest)) == Ok(v, rest)
  {
    var p := d.w + rest;
    assert d.w <= p && p[|d.w|..] == rest && p[0] == d.w[0];
  }

  /** A document starts with no blank and with nothing that closes a bracket. */
  lemma SpelledStart(d: Doc, rest: string)
    requires WellFormedDoc(d)
    ensures var p := Spelled(d, rest);
      Skip(p) == p && Head(p) != ']' && Head(p) != '}'
  {
  }

  lemma ItemGoes(p: string, v: Json, after: string, next: string, more: seq<Json>, rest: string)
    requires ParseValue(Skip(p)) == Ok(v, after) && Skip(after) == "," + next && ParseItems(next) == Ok(more, rest)
    ensures ParseItems(p) == Ok([v] + more, rest)
  {
    assert ("," + next)[1..] == next;
  }

  lemma ItemEnds(p: string, v: Json, after: string, rest: string)
    requires ParseValue(Skip(p)) == Ok(v, after) && Skip(after) == "]" + rest
    ensures ParseItems(p) == Ok([v], rest)
  {
    assert ("]" + rest)[1..] == rest;
  }

  lemma {:induction false} DocParses(d: Doc, v: Json, rest: string)
    requires WellFormedDoc(d) && Says(d, v) && Stops(rest)
    ensures ParseValue(Spelled(d, rest)) == Ok(v, rest)
    decreases d, 3, 0
  {
    match d
    case Word(_) => WordParses(d, v, rest);
    case Num(_, _) => NumParses(d, v, rest);
    case Literal(xs) => LiteralParses(xs, v.s, rest);
    case List(_, _) => ListParses(d, v, rest);
    case Map(_, _) => MapParses(d, v, rest);
  }

  /** What follows an item. */
  ghost function AfterItem(d: Doc, i: nat, rest: string): string
    requires WellFormedDoc(d) && d.List? && i < |d.items|
  {
    d.items[i].after + if i + 1 < |d.items| then "," + ItemsSpelled(d, i + 1, rest) else rest
  }

  lemma {:induction false} ItemParses(d: Doc, v: Json, i: nat, rest: string)
    requires WellFormedDoc(d) && d.List? && Says(d, v) && i < |d.items|
    ensures var p, after := ItemsSpelled(d, i, "]" + rest), AfterItem(d, i, "]" + rest);
      && ParseValue(Skip(p)) == Ok(v.items[i], after) && Head(Skip(p)) != ']'
      && Skip(after) == if i + 1 < |d.items| then "," + ItemsSpelled(d, i + 1, "]" + rest) else "]" + rest
    decreases d, 0, 0
  {
    var x, after := d.items[i], AfterItem(d, i, "]" + rest);
    if i + 1 < |d.items| {
      BlankStops(x.after, ',', ItemsSpelled(d, i + 1, "]" + rest));
    } else {
      BlankStops(x.after, ']', rest);
    }
    BlanksSkipped(x.before, Spelled(x.doc, after));
    SpelledStart(x.doc, after);
    DocParses(x.doc, v.items[i], after);
  }

  lemma {:induction false} ItemsParse(d: Doc, v: Json, i: nat, rest: string)
    requires WellFormedDoc(d) && d.List? && Says(d, v) && i < |d.items|
    ensures ParseItems(ItemsSpelled(d, i, "]" + rest)) == Ok(v.items[i..], rest)
    decreases d, 1, |d.items| - i
  {
    var p, after := ItemsSpelled(d, i, "]" + rest), AfterItem(d, i, "]" + rest);
    ItemParses(d, v, i, rest);
    FromIndex(v.items, i);
    if i + 1 < |d.items| {
      ItemsParse(d, v, i + 1, rest);
      ItemGoes(p, v.items[i], after, ItemsSpelled(d, i + 1, "]" + rest), v.items[i + 1..], rest);
    } else {
      ItemEnds(p, v.items[i], after, rest);
    }
  }

  lemma SkippedItems(p: string)
    ensures ParseItems(Skip(p)) == ParseItems(p)
  {
    SkipTwice(p);
    BlanksBeforeItems(Skip(p), p);
  }

  lemma {:induction false} ListParses(d: Doc, v: Json, rest: string)
    requires WellFormedDoc(d) && d.List? && Says(d, v)
    ensures ParseValue(Spelled(d, rest)) == Ok(v, rest)
    decreases d, 2, 0
  {
    var p := Spelled(d, rest);
    if d.items == [] {
      assert p[1..] == d.inside + ("]" + rest);
      BlankStops(d.inside, ']', rest);
    } else {
      var q := ItemsSpelled(d, 0, "]" + rest);
      assert p[1..] == q;
      ItemsParse(d, v, 0, rest);
      ItemParses(d, v, 0, rest);
      SkippedItems(q);
      assert v.items[0..] == v.items;
    }
    ArrayStep(p, v.items, rest);
  }

  lemma EntryReads(p: string, name: string, colon: string, q: string, v: Json, rest: string)
    requires ParseString(Skip(p)) == Ok(name, colon) && Skip(colon) == ":" + q && ParseValue(Skip(q)) == Ok(v, rest)
    ensures ParseMember(p) == Ok(Member(name, v), rest)
  {
    assert (":" + q)[1..] == q;
  }

  lemma EntryGoes(p: string, m: Member, after: string, next: string, more: seq<Member>, rest: string)
    requires ParseMember(p) == Ok(m, after) && Skip(after) == "," + next && ParseMembers(next) == Ok(more, rest)
    ensures ParseMembers(p) == Ok([m] + more, rest)
  {
    assert ("," + next)[1..] == next;
  }

  ghost function AfterEntry(d: Doc, i: nat, rest: string): string
    requires WellFormedDoc(d) && d.Map? && i < |d.entries|
  {
    d.entries[i].after + if i + 1 < |d.entries| then "," + EntriesSpelled(d, i + 1, rest) else rest
  }

  lemma ColonSkipped(s: string, q: string)
    requires Blank(s)
    ensures Skip(s + (":" + q)) == ":" + q
  {
    BlanksSkipped(s, ":" + q);
  }

  lemma NameParses(x: Entry, name: string, p: string, tail: string)
    requires Blank(x.before) && AllWellFormed(x.name) && AllMean(x.name, name) && Blank(x.beforeColon)
    requires p == x.before + LiteralText(x.name, x.beforeColon + (":" + tail))
    ensures ParseString(Skip(p)) == Ok(name, x.beforeColon + (":" + tail))
    ensures Skip(x.beforeColon + (":" + tail)) == ":" + tail && Head(Skip(p)) == '\"'
  {
    var q := LiteralText(x.name, x.beforeColon + (":" + tail));
    BlanksSkipped(x.before, q);
    assert Skip(q) == q;
    LiteralParses(x.name, name, x.beforeColon + (":" + tail));
    ColonSkipped(x.beforeColon, tail);
  }

  lemma {:induction false} EntryParses(d: Doc, v: Json, i: nat, rest: string)
    requires WellFormedDoc(d) && d.Map? && Says(d, v) && i < |d.entries|
    ensures var p, after := EntriesSpelled(d, i, "}" + rest), AfterEntry(d, i, "}" + rest);
      && ParseMember(p) == Ok(v.members[i], after) && Head(Skip(p)) == '\"'
      && Skip(after) == if i + 1 < |d.entries| then "," + EntriesSpelled(d, i + 1, "}" + rest) else "}" + rest
    decreases d, 0, 0
  {
    var x, m, after := d.entries[i], v.members[i], AfterEntry(d, i, "}" + rest);
    if i + 1 < |d.entries| {
      BlankStops(x.after, ',', EntriesSpelled(d, i + 1, "}" + rest));
    } else {
      BlankStops(x.after, '}', rest);
    }
    var q := x.afterColon + Spelled(x.doc, after);
    BlanksSkipped(x.afterColon, Spelled(x.doc, after));
    SpelledStart(x.doc, after);
    DocParses(x.doc, m.value, after);
    var p := EntriesSpelled(d, i, "}" + rest);
    NameParses(x, m.name, p, q);
    EntryReads(p, m.name, x.beforeColon + (":" + q), q, m.value, after);
  }

  lemma {:induction false} EntriesParse(d: Doc, v: Json, i: nat, rest: string)
    requires WellFormedDoc(d) && d.Map? && Says(d, v) && i < |d.entries|
    ensures ParseMembers(EntriesSpelled(d, i, "}" + rest)) == Ok(v.members[i..], rest)
    decreases d, 1, |d.entries| - i
  {
    var p, after := EntriesSpelled(d, i, "}" + rest), AfterEntry(d, i, "}" + rest);
    EntryParses(d, v, i, rest);
    FromIndex(v.members, i);
    if i + 1 < |d.entries| {
      EntriesParse(d, v, i + 1, rest);
      EntryGoes(p, v.members[i], after, EntriesSpelled(d, i + 1, "}" + rest), v.members[i + 1..], rest);
    } else {
      MembersEnd(p, v.members[i], after, rest);
    }
  }

  lemma {:induction false} MapParses(d: Doc, v: Json, rest: string)
    requires WellFormedDoc(d) && d.Map? && Says(d, v)
    ensures ParseValue(Spelled(d, rest)) == Ok(v, rest)
    decreases d, 2, 0
  {
    var p := Spelled(d, rest);
    if d.entries == [] {
      assert p[1..] == d.inside + ("}" + rest);
      BlankStops(d.inside, '}', rest);
    } else {
      var q := EntriesSpelled(d, 0, "}" + rest);
      assert p[1..] == q;
      EntriesParse(d, v, 0, rest);
      EntryParses(d, v, 0, rest);
      BlanksBeforeMembers(q);
      assert v.members[0..] == v.members;
    }
    ObjectStep(p, v.members, rest);
  }

  /** The parser reads every document as what it says, up to its last character. */
  lemma ReadsDocuments(d: Doc, v: Json, before: string, rest: string)
    requires WellFormedDoc(d) && Says(d, v) && Blank(before) && Stops(rest)
    ensures Parse(before + Spelled(d, rest)) == Ok(v, rest)
  {
    BlanksSkipped(before, Spelled(d, rest));
    SpelledStart(d, rest);
    DocParses(d, v, rest);
  }
}
