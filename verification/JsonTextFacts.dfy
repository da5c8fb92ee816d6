/** Lengths of printed text, absence of NUL in it, and its growth piece by piece. */
module JsonTextFacts {
  import opened Decimal
  import opened JsonText

  lemma {:induction false} TabsLength(n: int)
    ensures |Tabs(n)| == if n > 0 then n else 0
    ensures NUL !in Tabs(n)
    decreases n
  {
    if n > 0 {
      TabsLength(n - 1);
    }
  }

  lemma SignedLength(n: int)
    requires -0x8000_0000 <= n <= 0x7FFF_FFFF
    ensures 1 <= |Signed(n)| <= 11 && NUL !in Signed(n)
    ensures n == 0 ==> Signed(n) == "0"
  {
    assert Pow(10, 5) == 10_0000;
    assert Pow(10, 10) == 1_00_0000_0000;
    NumeralLength(if n < 0 then -n else n, 10, 10);
  }

  lemma {:induction false} EscapeConcat(s: string, t: string)
    ensures Escape(s + t) == Escape(s) + Escape(t)
    decreases s
  {
    if s == [] {
      assert s + t == t;
    } else {
      EscapeConcat(s[1..], t);
      assert (s + t)[1..] == s[1..] + t && (s + t)[0] == s[0];
    }
  }

  /** Escaping the first k + 1 characters escapes one more, and stays within the whole. */
  lemma EscapeStep(s: string, k: nat)
    requires k < |s|
    ensures Escape(s[..k + 1]) == Escape(s[..k]) + EscapeChar(s[k])
    ensures |Escape(s[..k + 1])| <= |Escape(s)|
  {
    EscapeConcat(s[..k], [s[k]]);
    assert s[..k + 1] == s[..k] + [s[k]];
    assert [s[k]][1..] == [];
    EscapeConcat(s[..k + 1], s[k + 1..]);
    assert s == s[..k + 1] + s[k + 1..];
  }

  lemma {:induction false} EscapePlain(s: string)
    requires forall i :: 0 <= i < |s| ==> !NeedsEscape(s[i])
    ensures Escape(s) == s
    decreases s
  {
    if s != [] {
      EscapePlain(s[1..]);
      assert s == [s[0]] + s[1..];
    }
  }

  /** The bytes print_string_ptr counts for one character: one, one more for a short escape, five more for \u. */
  function Cost(c: char): nat
  {
    if Mark(c) != NUL then 2 else if c < ' ' then 6 else 1
  }

  /** First pass over a string: does it need escapes, and how long is it escaped? */
  method Measure(s: string) returns (flag: bool, len: nat)
    ensures flag <==> exists i :: 0 <= i < |s| && NeedsEscape(s[i])
    ensures len == |Escape(s)|
  {
    flag, len := false, 0;
    var i := 0;
    while i < |s|
      invariant 0 <= i <= |s|
      invariant flag <==> exists k :: 0 <= k < i && NeedsEscape(s[k])
      invariant len == |Escape(s[..i])|
    {
      EscapeStep(s, i);
      flag := flag || NeedsEscape(s[i]);
      len := len + Cost(s[i]);
      i := i + 1;
    }
    assert s[..|s|] == s;
  }

  lemma {:induction false} EscapeHasNoNul(s: string)
    requires NUL !in s
    ensures NUL !in Escape(s)
    decreases s
  {
    if s != [] {
      EscapeHasNoNul(s[1..]);
    }
  }

  lemma {:induction false} TextHasNoNul(v: Json, depth: nat, fmt: bool)
    requires Printable(v)
    ensures NUL !in Text(v, depth, fmt) && Text(v, depth, fmt) != []
    decreases v, 1, 0
  {
    match v
    case Number(n) => SignedLength(n);
    case Str(s) => EscapeHasNoNul(s);
    case Arr(items) => if items != [] { ItemsHaveNoNul(v, 0, depth, fmt); }
    case Obj(members) =>
      TabsLength(depth - 1);
      TabsLength(depth);
      if members != [] { MembersHaveNoNul(v, 0, depth + 1, fmt); }
    case _ =>
  }

  lemma {:induction false} ItemsHaveNoNul(v: Json, i: nat, depth: nat, fmt: bool)
    requires v.Arr? && i < |v.items| && Printable(v)
    ensures NUL !in ItemsText(v, i, depth, fmt)
    decreases v, 0, |v.items| - i
  {
    TextHasNoNul(v.items[i], depth + 1, fmt);
    if i + 1 < |v.items| {
      ItemsHaveNoNul(v, i + 1, depth, fmt);
    }
  }

  lemma {:induction false} MembersHaveNoNul(v: Json, i: nat, depth: nat, fmt: bool)
    requires v.Obj? && i < |v.members| && Printable(v)
    ensures NUL !in MembersText(v, i, depth, fmt)
    decreases v, 0, |v.members| - i
  {
    TabsLength(depth);
    EscapeHasNoNul(v.members[i].name);
    TextHasNoNul(v.members[i].value, depth, fmt);
    if i + 1 < |v.members| {
      MembersHaveNoNul(v, i + 1, depth, fmt);
    }
  }

  lemma MemberRegroup(w: string, tabs: string, name: string, tab: string, t: string)
    ensures w + tabs + name + (":" + tab) + t == w + (tabs + name + ":" + tab + t)
  {
  }

  ghost function ItemsFrom(v: Json, k: nat, depth: nat, fmt: bool): string
    requires v.Arr? && k <= |v.items|
  {
    if k == |v.items| then "" else ItemsText(v, k, depth, fmt)
  }

  lemma ItemsFromStep(v: Json, k: nat, depth: nat, fmt: bool, w: string)
    requires v.Arr? && k < |v.items|
    ensures w + ItemsFrom(v, k, depth, fmt) ==
            w + Text(v.items[k], depth + 1, fmt) + (if k + 1 < |v.items| then "," + If(fmt, " ") else "")
            + ItemsFrom(v, k + 1, depth, fmt)
  {
    var t, more := Text(v.items[k], depth + 1, fmt), ItemsFrom(v, k + 1, depth, fmt);
    assert w + t + ("," + If(fmt, " ")) + more == w + (t + "," + If(fmt, " ") + more);
    assert w + t + "" + "" == w + t;
  }

  ghost function MembersFrom(v: Json, k: nat, depth: nat, fmt: bool): string
    requires v.Obj? && k <= |v.members|
  {
    if k == |v.members| then "" else MembersText(v, k, depth, fmt)
  }

  lemma MembersFromStep(v: Json, k: nat, depth: nat, fmt: bool, w: string)
    requires v.Obj? && k < |v.members|
    ensures w + MembersFrom(v, k, depth, fmt) ==
            w + MemberText(v, k, depth, fmt) + ((if k + 1 < |v.members| then "," else "") + If(fmt, "\n"))
            + MembersFrom(v, k + 1, depth, fmt)
  {
    var t, more := MemberText(v, k, depth, fmt), MembersFrom(v, k + 1, depth, fmt);
    assert w + t + ("," + If(fmt, "\n")) + more == w + (t + "," + If(fmt, "\n") + more);
    assert w + t + ("" + If(fmt, "\n")) + "" == w + (t + If(fmt, "\n"));
  }

  lemma ObjectClosed(v: Json, depth: nat, fmt: bool, w: string, now: string)
    requires v.Obj? && v.members != []
    requires now == w + ("{" + If(fmt, "\n")) + MembersText(v, 0, depth + 1, fmt)
    ensures now + (If(fmt, Tabs(depth)) + "}") == w + Text(v, depth, fmt)
  {
    var nl, m, tabs := If(fmt, "\n"), MembersText(v, 0, depth + 1, fmt), If(fmt, Tabs(depth));
    BracesRegroup(w, nl, m, tabs);
    assert Text(v, depth, fmt) == "{" + nl + m + tabs + "}";
  }

  lemma BracesRegroup(w: string, nl: string, m: string, tabs: string)
    ensures w + ("{" + nl) + m + (tabs + "}") == w + ("{" + nl + m + tabs + "}")
  {
  }
}
