/** The printer that allocates one string per node, sized before it is filled. */
module JsonAlloc {
  import opened Decimal
  import opened JsonText
  import opened JsonTextFacts

  /** cJSON_Print (fmt) and cJSON_PrintUnformatted: the text and the size it was allocated with. */
  method PrintValue(v: Json, depth: nat, fmt: bool) returns (out: string, size: nat)
    requires Printable(v)
    ensures out == Text(v, depth, fmt) && |out| < size
    decreases v, 1
  {
    match v
    case Null => out, size := "null", 5;
    case False => out, size := "false", 6;
    case True => out, size := "true", 5;
    case Number(n) => out, size := PrintNumber(n);
    case Str(s) => out, size := PrintString(s);
    case Arr(items) => out, size := PrintArray(v, depth, fmt);
    case Obj(members) => out, size := PrintObject(v, depth, fmt);
  }

  method PrintNumber(n: int) returns (out: string, size: nat)
    requires -0x8000_0000 <= n <= 0x7FFF_FFFF
    ensures out == Signed(n) && |out| < size
  {
    SignedLength(n);
    if n == 0 {
      out, size := "0", 2;
    } else {
      out, size := Signed(n), 21;
    }
  }

  method PrintString(s: string) returns (out: string, size: nat)
    ensures out == Quote(s) && |out| < size
  {
    var flag, len := Measure(s);
    if !flag {
      EscapePlain(s);
      return "\"" + s + "\"", |s| + 3;
    }
    size := len + 3;
    out := AppendEscaped("\"", s);
    out := out + "\"";
  }

  lemma AppendStep(start: string, s: string, k: nat)
    requires k < |s|
    ensures start + Escape(s[..k]) + EscapeChar(s[k]) == start + Escape(s[..k + 1])
  {
    EscapeStep(s, k);
    Append(start, Escape(s[..k]), EscapeChar(s[k]));
  }

  lemma Append(x: string, y: string, z: string)
    ensures x + y + z == x + (y + z)
  {
  }

  method AppendEscaped(start: string, s: string) returns (out: string)
    ensures out == start + Escape(s)
  {
    out := start;
    var k := 0;
    while k < |s|
      invariant 0 <= k <= |s|
      invariant out == start + Escape(s[..k])
    {
      AppendStep(start, s, k);
      out := out + EscapeChar(s[k]);
      k := k + 1;
    }
    assert s[..|s|] == s;
  }

  method PrintArray(v: Json, depth: nat, fmt: bool) returns (out: string, size: nat)
    requires v.Arr? && Printable(v)
    ensures out == Text(v, depth, fmt) && |out| < size
    decreases v, 0
  {
    if v.items == [] {
      return "[]", 3;
    }
    var entries: seq<string> := [];
    size := 5;
    while |entries| < |v.items|
      invariant |entries| <= |v.items|
      invariant forall i :: 0 <= i < |entries| ==> entries[i] == Text(v.items[i], depth + 1, fmt)
      invariant size + |ItemsFrom(v, |entries|, depth, fmt)| >= 5 + |ItemsFrom(v, 0, depth, fmt)|
    {
      var entry, _ := PrintValue(v.items[|entries|], depth + 1, fmt);
      ItemsFromStep(v, |entries|, depth, fmt, "");
      size := size + |entry| + 2 + (if fmt then 1 else 0);
      entries := entries + [entry];
    }
    out := "[";
    var i := 0;
    while i < |entries|
      invariant 0 <= i <= |entries|
      invariant out + ItemsFrom(v, i, depth, fmt) == "[" + ItemsFrom(v, 0, depth, fmt)
    {
      ItemsFromStep(v, i, depth, fmt, out);
      out := out + entries[i];
      if i != |entries| - 1 {
        out := out + ("," + If(fmt, " "));
      } else {
        assert out + "" == out;
      }
      i := i + 1;
    }
    assert out + "" == out;
    out := out + "]";
  }

  method PrintObject(v: Json, depth: nat, fmt: bool) returns (out: string, size: nat)
    requires v.Obj? && Printable(v)
    ensures out == Text(v, depth, fmt) && |out| < size
    decreases v, 0
  {
    if v.members == [] {
      TabsLength(depth - 1);
      return "{" + If(fmt, "\n" + Tabs(depth - 1)) + "}", if fmt then depth + 4 else 3;
    }
    TabsLength(depth);
    TabsLength(depth + 1);
    var names, entries, room := CollectMembers(v, depth, fmt);
    size := 7 + (if fmt then depth + 1 else 0) + room;
    out := ComposeObject(v, depth, fmt, names, entries);
  }

  /** What is counted for a member covers its text and what stands around it. */
  lemma MemberRoom(v: Json, k: nat, depth: nat, fmt: bool)
    requires v.Obj? && k < |v.members|
    ensures |Quote(v.members[k].name)| + |Text(v.members[k].value, depth, fmt)| + 2 + (if fmt then 2 + depth else 0)
            + |MembersFrom(v, k + 1, depth, fmt)| >= |MembersFrom(v, k, depth, fmt)|
  {
    TabsLength(depth);
    MembersFromStep(v, k, depth, fmt, "");
  }

  /** The texts of the first names and values. */
  ghost predicate Collected(v: Json, depth: nat, fmt: bool, names: seq<string>, entries: seq<string>)
    requires v.Obj?
  {
    && |names| == |entries| <= |v.members|
    && forall i :: 0 <= i < |entries| ==>
         names[i] == Quote(v.members[i].name) && entries[i] == Text(v.members[i].value, depth + 1, fmt)
  }

  lemma OneMoreCollected(v: Json, depth: nat, fmt: bool, names: seq<string>, entries: seq<string>)
    requires v.Obj? && Collected(v, depth, fmt, names, entries) && |entries| < |v.members|
    ensures var m := v.members[|entries|];
      Collected(v, depth, fmt, names + [Quote(m.name)], entries + [Text(m.value, depth + 1, fmt)])
  {
  }

  /** The first pass: the text of every name and value, and the room that they will take. */
  method CollectMembers(v: Json, depth: nat, fmt: bool)
      returns (names: seq<string>, entries: seq<string>, room: nat)
    requires v.Obj? && v.members != [] && Printable(v)
    ensures Collected(v, depth, fmt, names, entries) && |entries| == |v.members|
    ensures room >= |MembersText(v, 0, depth + 1, fmt)|
    decreases v, 0, 1
  {
    names, entries, room := [], [], 0;
    while |entries| < |v.members|
      invariant Collected(v, depth, fmt, names, entries)
      invariant room + |MembersFrom(v, |entries|, depth + 1, fmt)| >= |MembersFrom(v, 0, depth + 1, fmt)|
    {
      var name, entry, more := CollectOne(v, |entries|, depth, fmt);
      OneMoreCollected(v, depth, fmt, names, entries);
      room := room + more;
      names, entries := names + [name], entries + [entry];
    }
  }

  method CollectOne(v: Json, k: nat, depth: nat, fmt: bool) returns (name: string, entry: string, room: nat)
    requires v.Obj? && k < |v.members| && Printable(v)
    ensures name == Quote(v.members[k].name) && entry == Text(v.members[k].value, depth + 1, fmt)
    ensures room + |MembersFrom(v, k + 1, depth + 1, fmt)| >= |MembersFrom(v, k, depth + 1, fmt)|
    decreases v, 0, 0
  {
    var ignored;
    name, ignored := PrintString(v.members[k].name);
    entry, ignored := PrintValue(v.members[k].value, depth + 1, fmt);
    MemberRoom(v, k, depth + 1, fmt);
    room := |entry| + |name| + 2 + (if fmt then 2 + depth + 1 else 0);
  }

  method ComposeObject(v: Json, depth: nat, fmt: bool, names: seq<string>, entries: seq<string>) returns (out: string)
    requires v.Obj? && v.members != [] && Collected(v, depth, fmt, names, entries) && |entries| == |v.members|
    ensures out == Text(v, depth, fmt)
  {
    out := "{" + If(fmt, "\n");
    var i := 0;
    while i < |entries|
      invariant 0 <= i <= |entries|
      invariant out + MembersFrom(v, i, depth + 1, fmt) == "{" + If(fmt, "\n") + MembersFrom(v, 0, depth + 1, fmt)
    {
      ghost var before := out;
      MembersFromStep(v, i, depth + 1, fmt, before);
      out := out + If(fmt, Tabs(depth + 1)) + names[i] + (":" + If(fmt, "\t")) + entries[i];
      MemberRegroup(before, If(fmt, Tabs(depth + 1)), names[i], If(fmt, "\t"), entries[i]);
      out := out + ((if i != |entries| - 1 then "," else "") + If(fmt, "\n"));
      i := i + 1;
    }
    assert out + "" == out;
    assert out + (If(fmt, Tabs(depth)) + "}") == out + If(fmt, Tabs(depth)) + "}";
    out := out + If(fmt, Tabs(depth)) + "}";
  }
}
