/** Parsing what was printed gives the value back and leaves exactly what followed it. */
module JsonRoundTrip {
  import opened Decimal
  import opened JsonText
  import opened JsonParse

  /** Text that cannot continue a numeral. */
  ghost predicate Stops(rest: string)
  {
    !IsDigit(Head(rest)) && Head(rest) != '.' && Head(rest) != 'e' && Head(rest) != 'E'
  }

  lemma {:induction false} DigitsScanBack(n: nat, ds: string, rest: string)
    requires AllDigits(ds) && !IsDigit(Head(rest))
    ensures ScanDigits(n, ds + rest) == (Scanned(n, ds), rest)
    decreases ds
  {
    if ds == [] {
      assert [] + rest == rest;
    } else {
      DigitsScanBack(10 * n + DigitValue(ds[0]), ds[1..], rest);
      assert (ds + rest)[1..] == ds[1..] + rest;
    }
  }

  /** The numeral of a natural number, scanned as parse_number does after the sign. */
  lemma NumeralBack(m: nat, rest: string)
    requires Stops(rest)
    ensures var q := Numeral(m, 10) + rest;
      var q0 := if Head(q) == '0' then q[1..] else q;
      && IsDigit(Head(q))
      && (if '1' <= Head(q0) <= '9' then ScanDigits(0, q0) else (0, q0)) == (m, rest)
  {
    var ds := Numeral(m, 10);
    NumeralScans(m);
    if m == 0 {
      assert (ds + rest)[1..] == rest;
    } else {
      DigitsScanBack(0, ds, rest);
    }
  }

  lemma NumberBack(n: int, rest: string)
    requires Stops(rest) && IsInt32(n)
    ensures var p := Signed(n) + rest;
      && (Head(p) == '-' || IsDigit(Head(p)))
      && ParseNumber(p) == Ok(n, rest)
  {
    var m: nat := if n < 0 then -n else n;
    NumeralBack(m, rest);
    if n < 0 {
      assert (Signed(n) + rest)[1..] == Numeral(m, 10) + rest;
    }
  }

  lemma PlainCharBack(c: char, tail: string)
    requires !NeedsEscape(c)
    ensures var r := Unescape(tail);
            Unescape([c] + tail) == ([c] + r.0, r.1)
  {
    assert Drop([c] + tail, 1) == tail;
  }

  lemma MarkedCharBack(mark: char, tail: string)
    requires mark != 'u'
    ensures var r := Unescape(tail);
            Unescape(['\\', mark] + tail) == ([Unmark(mark)] + r.0, r.1)
  {
    assert Drop(['\\', mark] + tail, 2) == tail;
  }

  lemma HexCharBack(c: char, tail: string)
    requires NUL < c < ' '
    ensures var r := Unescape(tail);
            Unescape("\\u00" + Hex2(c as int) + tail) == ([c] + r.0, r.1)
  {
    var n := c as int;
    var p := "\\u00" + Hex2(n) + tail;
    assert Drop(p, 6) == tail;
    assert Drop(p, 2) == "00" + Hex2(n) + tail;
    assert Hex4(Drop(p, 2)) == n;
    assert UnicodeEscape(p) == ([c], 6);
  }

  lemma EscapedCharBack(c: char, tail: string)
    requires c != NUL
    ensures var r := Unescape(tail);
            Unescape(EscapeChar(c) + tail) == ([c] + r.0, r.1)
  {
    if !NeedsEscape(c) {
      PlainCharBack(c, tail);
    } else if Mark(c) != NUL {
      MarkedCharBack(Mark(c), tail);
    } else {
      HexCharBack(c, tail);
    }
  }

  lemma {:induction false} EscapeBack(s: string, rest: string)
    requires NUL !in s
    ensures Unescape(Escape(s) + "\"" + rest) == (s, "\"" + rest)
    decreases s
  {
    if s == [] {
      assert Escape(s) + "\"" + rest == "\"" + rest;
    } else {
      var tail := Escape(s[1..]) + "\"" + rest;
      assert Escape(s) + "\"" + rest == EscapeChar(s[0]) + tail;
      EscapedCharBack(s[0], tail);
      EscapeBack(s[1..], rest);
      assert [s[0]] + s[1..] == s;
    }
  }

  lemma QuoteBack(s: string, rest: string)
    requires NUL !in s
    ensures ParseString(Quote(s) + rest) == Ok(s, rest)
  {
    var p := Quote(s) + rest;
    assert p[1..] == Escape(s) + "\"" + rest;
    EscapeBack(s, rest);
    assert ("\"" + rest)[1..] == rest;
  }

  lemma {:induction false} SkipTabs(n: int, s: string)
    ensures Skip(Tabs(n) + s) == Skip(s)
    decreases n
  {
    if n <= 0 {
      assert Tabs(n) + s == s;
    } else {
      assert (Tabs(n) + s)[1..] == Tabs(n - 1) + s;
      SkipTabs(n - 1, s);
    }
  }

  lemma SkipOne(c: char, s: string)
    requires NUL != c <= ' '
    ensures Skip([c] + s) == Skip(s)
  {
    assert ([c] + s)[1..] == s;
  }

  /** A value's text starts with no blank and with nothing that closes a bracket. */
  lemma TextStart(v: Json, depth: nat, fmt: bool, rest: string)
    ensures var p := Text(v, depth, fmt) + rest;
            p != [] && Skip(p) == p && p[0] != ']' && p[0] != '}'
  {
    match v
    case Number(n) => NumeralScans(if n < 0 then -n else n);
    case _ =>
  }

  lemma KeywordBack(v: Json, depth: nat, fmt: bool, rest: string)
    requires v.Null? || v.False? || v.True?
    ensures ParseValue(Text(v, depth, fmt) + rest) == Ok(v, rest)
  {
    var t := Text(v, depth, fmt);
    var p := t + rest;
    assert p[0] == t[0] && t <= p && p[|t|..] == rest;
  }

  /** After the opening bracket: either the closing one or the items. */
  lemma ArrayStep(p: string, items: seq<Json>, rest: string)
    requires Head(p) == '['
    requires var q := Skip(p[1..]);
      if items == [] then q == "]" + rest else Head(q) != ']' && ParseItems(q) == Ok(items, rest)
    ensures ParseValue(p) == Ok(Arr(items), rest)
  {
    assert p[0] == '[';
    assert ("]" + rest)[1..] == rest;
  }

  lemma ObjectStep(p: string, members: seq<Member>, rest: string)
    requires Head(p) == '{'
    requires var q := Skip(p[1..]);
      if members == [] then q == "}" + rest else Head(q) != '}' && ParseMembers(q) == Ok(members, rest)
    ensures ParseValue(p) == Ok(Obj(members), rest)
  {
    assert p[0] == '{';
    assert ("}" + rest)[1..] == rest;
  }

  lemma Comma(after: string, tail: string)
    requires after == "," + tail
    ensures Skip(after) == after && Head(after) == ',' && after[1..] == tail
  {
  }

  lemma ItemsStep(p: string, v: Json, after: string, tail: string, next: string, more: seq<Json>, rest: string)
    requires ParseValue(Skip(p)) == Ok(v, after) && after == "," + tail
    requires Skip(tail) == Skip(next)
    requires ParseItems(next) == Ok(more, rest)
    ensures ParseItems(p) == Ok([v] + more, rest)
  {
    Comma(after, tail);
    BlanksBeforeItems(tail, next);
  }

  lemma BlanksBeforeItems(p: string, q: string)
    requires Skip(p) == Skip(q)
    ensures ParseItems(p) == ParseItems(q)
  {
  }

  lemma ItemsEnd(p: string, v: Json, rest: string)
    requires ParseValue(Skip(p)) == Ok(v, "]" + rest)
    ensures ParseItems(p) == Ok([v], rest)
  {
    var after := "]" + rest;
    assert Skip(after) == after && after[1..] == rest;
  }

  lemma MemberStep(p: string, name: string, blanks: string, q: string, v: Json, rest: string)
    requires ParseString(Skip(p)) == Ok(name, ":" + (blanks + q))
    requires Skip(blanks + q) == q
    requires ParseValue(q) == Ok(v, rest)
    ensures ParseMember(p) == Ok(Member(name, v), rest)
  {
    var colon := ":" + (blanks + q);
    assert Skip(colon) == colon && colon[1..] == blanks + q;
  }

  lemma MembersStep(p: string, m: Member, after: string, tail: string, next: string, more: seq<Member>, rest: string)
    requires ParseMember(p) == Ok(m, after) && after == "," + tail
    requires Skip(tail) == Skip(next)
    requires ParseMembers(next) == Ok(more, rest)
    ensures ParseMembers(p) == Ok([m] + more, rest)
  {
    Comma(after, tail);
  }

  lemma MembersEnd(p: string, m: Member, after: string, rest: string)
    requires ParseMember(p) == Ok(m, after) && Skip(after) == "}" + rest
    ensures ParseMembers(p) == Ok([m], rest)
  {
    assert ("}" + rest)[1..] == rest;
  }

  /** Optional blanks in front of a text are skipped with it. */
  lemma SkipIf(fmt: bool, c: char, s: string)
    requires NUL != c <= ' '
    ensures Skip(If(fmt, [c]) + s) == Skip(s)
  {
    SkipOne(c, s);
    assert [] + s == s;
  }

  lemma SkipIndent(fmt: bool, n: int, s: string)
    ensures Skip(If(fmt, Tabs(n)) + s) == Skip(s)
  {
    SkipTabs(n, s);
    assert [] + s == s;
  }

  /** Concatenation regrouped to the right. */
  lemma Regroup3(a: string, b: string, c: string)
    ensures a + b + c == a + (b + c)
  {
  }

  lemma Regroup4(a: string, b: string, c: string, d: string)
    ensures a + b + c + d == a + (b + (c + d))
  {
    Regroup3(a, b, c);
  }

  lemma Regroup5(a: string, b: string, c: string, d: string, e: string)
    ensures a + b + c + d + e == a + (b + (c + (d + e)))
  {
    Regroup4(a, b, c, d);
    Regroup3(b, c, d);
  }

  lemma Regroup6(a: string, b: string, c: string, d: string, e: string, f: string)
    ensures a + b + c + d + e + f == a + (b + (c + (d + (e + f))))
  {
    Regroup5(a, b, c, d, e);
    Regroup5(b, c, d, e, f);
  }

  /** Every printed value is parsed back, and the text after it is left untouched. */
  lemma {:induction false} ParsesBack(v: Json, depth: nat, fmt: bool, rest: string)
    requires Printable(v) && Stops(rest)
    ensures ParseValue(Text(v, depth, fmt) + rest) == Ok(v, rest)
    decreases v, 3, 0
  {
    match v
    case Number(n) => NumberBack(n, rest);
    case Str(s) => QuoteBack(s, rest);
    case Arr(items) => ArrayBack(v, depth, fmt, rest);
    case Obj(members) => ObjectBack(v, depth, fmt, rest);
    case _ => KeywordBack(v, depth, fmt, rest);
  }

  lemma {:induction false} ArrayBack(v: Json, depth: nat, fmt: bool, rest: string)
    requires v.Arr? && Printable(v) && Stops(rest)
    ensures ParseValue(Text(v, depth, fmt) + rest) == Ok(v, rest)
    decreases v, 2, 0
  {
    var p := Text(v, depth, fmt) + rest;
    if v.items == [] {
      assert p[1..] == "]" + rest;
    } else {
      var q := ItemsTail(v, 0, depth, fmt, rest);
      Regroup4("[", ItemsText(v, 0, depth, fmt), "]", rest);
      assert p[1..] == q;
      ItemsBack(v, 0, depth, fmt, rest);
      var after := ItemsCut(v, 0, depth, fmt, rest);
      TextStart(v.items[0], depth + 1, fmt, after);
    }
    ArrayStep(p, v.items, rest);
  }

  /** The items from one on, with the rest of the text after them. */
  ghost function ItemsTail(v: Json, i: nat, depth: nat, fmt: bool, rest: string): string
    requires v.Arr? && i < |v.items|
  {
    ItemsText(v, i, depth, fmt) + ("]" + rest)
  }

  /** The text from one item on, cut after the item. */
  lemma ItemsCut(v: Json, i: nat, depth: nat, fmt: bool, rest: string) returns (after: string)
    requires v.Arr? && i < |v.items|
    ensures ItemsTail(v, i, depth, fmt, rest) == Text(v.items[i], depth + 1, fmt) + after
    ensures after == if i + 1 == |v.items| then "]" + rest
                     else "," + (If(fmt, " ") + ItemsTail(v, i + 1, depth, fmt, rest))
  {
    var t := Text(v.items[i], depth + 1, fmt);
    if i + 1 < |v.items| {
      Regroup5(t, ",", If(fmt, " "), ItemsText(v, i + 1, depth, fmt), "]" + rest);
      after := "," + (If(fmt, " ") + ItemsTail(v, i + 1, depth, fmt, rest));
    } else {
      after := "]" + rest;
    }
  }

  lemma FromIndex<T>(s: seq<T>, i: nat)
    requires i < |s|
    ensures s[i..] == [s[i]] + s[i + 1..]
    ensures i + 1 == |s| ==> s[i..] == [s[i]]
  {
  }

  lemma ItemsJoin(p: string, v: Json, fmt: bool, next: string, more: seq<Json>, rest: string)
    requires ParseValue(Skip(p)) == Ok(v, "," + (If(fmt, " ") + next))
    requires ParseItems(next) == Ok(more, rest)
    ensures ParseItems(p) == Ok([v] + more, rest)
  {
    SkipIf(fmt, ' ', next);
    var tail := If(fmt, " ") + next;
    ItemsStep(p, v, "," + tail, tail, next, more, rest);
  }

  lemma {:induction false} FirstItemBack(v: Json, i: nat, depth: nat, fmt: bool, rest: string) returns (after: string)
    requires v.Arr? && i < |v.items| && Printable(v)
    ensures ParseValue(Skip(ItemsTail(v, i, depth, fmt, rest))) == Ok(v.items[i], after)
    ensures after == if i + 1 == |v.items| then "]" + rest
                     else "," + (If(fmt, " ") + ItemsTail(v, i + 1, depth, fmt, rest))
    decreases v, 0, 0
  {
    after := ItemsCut(v, i, depth, fmt, rest);
    TextStart(v.items[i], depth + 1, fmt, after);
    ParsesBack(v.items[i], depth + 1, fmt, after);
  }

  lemma {:induction false} ItemsBack(v: Json, i: nat, depth: nat, fmt: bool, rest: string)
    requires v.Arr? && i < |v.items| && Printable(v)
    ensures ParseItems(ItemsTail(v, i, depth, fmt, rest)) == Ok(v.items[i..], rest)
    decreases v, 0, |v.items| - i
  {
    var p := ItemsTail(v, i, depth, fmt, rest);
    var after := FirstItemBack(v, i, depth, fmt, rest);
    if i + 1 < |v.items| {
      ItemsBack(v, i + 1, depth, fmt, rest);
      ItemsJoin(p, v.items[i], fmt, ItemsTail(v, i + 1, depth, fmt, rest), v.items[i + 1..], rest);
      FromIndex(v.items, i);
    } else {
      ItemsEnd(p, v.items[i], rest);
      FromIndex(v.items, i);
    }
  }

  lemma NameBack(p: string, name: string, depth: nat, fmt: bool, colon: string)
    requires p == If(fmt, Tabs(depth)) + (Quote(name) + colon) && NUL !in name
    ensures ParseString(Skip(p)) == Ok(name, colon)
    ensures Head(Skip(p)) == '\"'
  {
    SkipIndent(fmt, depth, Quote(name) + colon);
    QuoteBack(name, colon);
  }

  lemma MemberJoin(p: string, m: Member, depth: nat, fmt: bool, q: string, rest: string)
    requires p == If(fmt, Tabs(depth)) + (Quote(m.name) + (":" + (If(fmt, "\t") + q)))
    requires NUL !in m.name && Skip(q) == q && ParseValue(q) == Ok(m.value, rest)
    ensures ParseMember(p) == Ok(m, rest)
    ensures Head(Skip(p)) == '\"'
  {
    NameBack(p, m.name, depth, fmt, ":" + (If(fmt, "\t") + q));
    SkipIf(fmt, '\t', q);
    MemberStep(p, m.name, If(fmt, "\t"), q, m.value, rest);
  }

  lemma {:induction false} MemberBack(v: Json, i: nat, depth: nat, fmt: bool, rest: string)
    requires v.Obj? && i < |v.members| && Printable(v) && Stops(rest)
    ensures ParseMember(MemberText(v, i, depth, fmt) + rest) == Ok(v.members[i], rest)
    ensures Head(Skip(MemberText(v, i, depth, fmt) + rest)) == '\"'
    decreases v, 0, 0
  {
    var m := v.members[i];
    var p := MemberText(v, i, depth, fmt) + rest;
    var t := Text(m.value, depth, fmt);
    Regroup6(If(fmt, Tabs(depth)), Quote(m.name), ":", If(fmt, "\t"), t, rest);
    TextStart(m.value, depth, fmt, rest);
    ParsesBack(m.value, depth, fmt, rest);
    MemberJoin(p, m, depth, fmt, t + rest, rest);
  }

  /** The members from one on, with the rest of the object and of the text after them. */
  ghost function MembersTail(v: Json, i: nat, depth: nat, fmt: bool, rest: string): string
    requires v.Obj? && i < |v.members|
  {
    MembersText(v, i, depth + 1, fmt) + (If(fmt, Tabs(depth)) + ("}" + rest))
  }

  /** The text from one member on, cut after the member. */
  lemma MembersCut(v: Json, i: nat, depth: nat, fmt: bool, rest: string) returns (after: string)
    requires v.Obj? && i < |v.members|
    ensures MembersTail(v, i, depth, fmt, rest) == MemberText(v, i, depth + 1, fmt) + after
    ensures after == if i + 1 == |v.members| then If(fmt, "\n") + (If(fmt, Tabs(depth)) + ("}" + rest))
                     else "," + (If(fmt, "\n") + MembersTail(v, i + 1, depth, fmt, rest))
  {
    var t := MemberText(v, i, depth + 1, fmt);
    var close := If(fmt, Tabs(depth)) + ("}" + rest);
    if i + 1 < |v.members| {
      Regroup5(t, ",", If(fmt, "\n"), MembersText(v, i + 1, depth + 1, fmt), close);
      after := "," + (If(fmt, "\n") + MembersTail(v, i + 1, depth, fmt, rest));
    } else {
      Regroup3(t, If(fmt, "\n"), close);
      after := If(fmt, "\n") + close;
    }
  }

  /** After the last member only blanks precede the closing brace. */
  lemma CloseObject(depth: int, fmt: bool, rest: string)
    ensures var close := If(fmt, "\n") + (If(fmt, Tabs(depth)) + ("}" + rest));
            Skip(close) == "}" + rest && Stops(close)
  {
    SkipIndent(fmt, depth, "}" + rest);
    SkipIf(fmt, '\n', If(fmt, Tabs(depth)) + ("}" + rest));
  }

  lemma MembersJoin(p: string, m: Member, fmt: bool, next: string, more: seq<Member>, rest: string)
    requires ParseMember(p) == Ok(m, "," + (If(fmt, "\n") + next))
    requires ParseMembers(next) == Ok(more, rest)
    ensures ParseMembers(p) == Ok([m] + more, rest)
  {
    SkipIf(fmt, '\n', next);
    var tail := If(fmt, "\n") + next;
    MembersStep(p, m, "," + tail, tail, next, more, rest);
  }

  lemma {:induction false} FirstMemberBack(v: Json, i: nat, depth: nat, fmt: bool, rest: string)
    returns (after: string)
    requires v.Obj? && i < |v.members| && Printable(v)
    ensures ParseMember(MembersTail(v, i, depth, fmt, rest)) == Ok(v.members[i], after)
    ensures Head(Skip(MembersTail(v, i, depth, fmt, rest))) == '\"'
    ensures i + 1 == |v.members| ==> Skip(after) == "}" + rest
    ensures i + 1 < |v.members| ==> after == "," + (If(fmt, "\n") + MembersTail(v, i + 1, depth, fmt, rest))
    decreases v, 0, 1
  {
    after := MembersCut(v, i, depth, fmt, rest);
    CloseObject(depth, fmt, rest);
    MemberBack(v, i, depth + 1, fmt, after);
  }

  lemma {:induction false} MembersBack(v: Json, i: nat, depth: nat, fmt: bool, rest: string)
    requires v.Obj? && i < |v.members| && Printable(v)
    ensures ParseMembers(MembersTail(v, i, depth, fmt, rest)) == Ok(v.members[i..], rest)
    decreases v, 1, |v.members| - i
  {
    var p := MembersTail(v, i, depth, fmt, rest);
    var after := FirstMemberBack(v, i, depth, fmt, rest);
    if i + 1 < |v.members| {
      MembersBack(v, i + 1, depth, fmt, rest);
      MembersJoin(p, v.members[i], fmt, MembersTail(v, i + 1, depth, fmt, rest), v.members[i + 1..], rest);
      FromIndex(v.members, i);
    } else {
      MembersEnd(p, v.members[i], after, rest);
      FromIndex(v.members, i);
    }
  }

  /** Blanks in front of the members do not matter. */
  lemma BlanksBeforeMembers(p: string)
    ensures ParseMembers(Skip(p)) == ParseMembers(p)
  {
    SkipTwice(p);
    assert ParseMember(Skip(p)) == ParseMember(p);
  }

  lemma {:induction false} SkipTwice(p: string)
    ensures Skip(Skip(p)) == Skip(p)
    decreases |p|
  {
    if p != [] && NUL != p[0] <= ' ' {
      SkipTwice(p[1..]);
    }
  }

  lemma {:induction false} ObjectBack(v: Json, depth: nat, fmt: bool, rest: string)
    requires v.Obj? && Printable(v) && Stops(rest)
    ensures ParseValue(Text(v, depth, fmt) + rest) == Ok(v, rest)
    decreases v, 2, 0
  {
    var p := Text(v, depth, fmt) + rest;
    if v.members == [] {
      EmptyObjectStart(depth, fmt, rest);
    } else {
      var q := MembersTail(v, 0, depth, fmt, rest);
      var m, close := MembersText(v, 0, depth + 1, fmt), If(fmt, Tabs(depth));
      Regroup6("{", If(fmt, "\n"), m, close, "}", rest);
      assert p[1..] == If(fmt, "\n") + q;
      SkipIf(fmt, '\n', q);
      MembersBack(v, 0, depth, fmt, rest);
      BlanksBeforeMembers(q);
      var after := FirstMemberBack(v, 0, depth, fmt, rest);
    }
    ObjectStep(p, v.members, rest);
  }

  lemma EmptyObjectStart(depth: nat, fmt: bool, rest: string)
    ensures Skip((Text(Obj([]), depth, fmt) + rest)[1..]) == "}" + rest
  {
    var tabs := Tabs(depth - 1);
    if fmt {
      assert (Text(Obj([]), depth, fmt) + rest)[1..] == "\n" + (tabs + ("}" + rest));
    } else {
      assert (Text(Obj([]), depth, fmt) + rest)[1..] == [] + ([] + ("}" + rest));
    }
    CloseObject(depth - 1, fmt, rest);
  }

  /** What cJSON_Print and cJSON_PrintUnformatted return is parsed back to the same tree, to the last character. */
  lemma RoundTrip(v: Json, fmt: bool)
    requires Printable(v)
    ensures Parse(Text(v, 0, fmt)) == Ok(v, "")
  {
    ParsesBack(v, 0, fmt, "");
    TextStart(v, 0, fmt, "");
    assert Text(v, 0, fmt) + "" == Text(v, 0, fmt);
  }
}
