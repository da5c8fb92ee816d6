/** The parser as cJSON writes it, with loops over the text, proved against the functions of JsonParse. */
module JsonParser {
  import opened Decimal
  import opened JsonText
  import opened JsonParse
  import opened JsonUnicode

  method SkipBlanks(p: string) returns (r: string)
    ensures r == Skip(p)
  {
    r := p;
    while r != [] && NUL != r[0] <= ' '
      invariant Skip(r) == Skip(p)
      decreases |r|
    {
      r := r[1..];
    }
  }

  method ReadNumber(p: string) returns (r: Parsed<int>)
    requires Head(p) == '-' || IsDigit(Head(p))
    ensures r == ParseNumber(p)
  {
    var q := p;
    if Head(q) == '-' {
      q := q[1..];
    }
    if Head(q) == '0' {
      q := q[1..];
    }
    var n := 0;
    if '1' <= Head(q) <= '9' {
      ghost var q0 := q;
      while q != [] && IsDigit(q[0])
        invariant n >= 0 && ScanDigits(n, q) == ScanDigits(0, q0)
        decreases |q|
      {
        n := 10 * n + DigitValue(q[0]);
        q := q[1..];
      }
    }
    if (Head(q) == '.' && IsDigit(At(q, 1))) || Head(q) == 'e' || Head(q) == 'E' {
      return Inexact;
    }
    if Head(p) == '-' {
      n := -n;
    }
    r := if IsInt32(n) then Ok(n, q) else Inexact;
  }

  /** The first pass over a literal: how much room its text needs at most. */
  method CountLiteral(p: string) returns (len: nat)
    ensures len == Counted(p)
  {
    len := 0;
    var ptr := p;
    while Head(ptr) != '\"' && Head(ptr) != NUL
      invariant len + Counted(ptr) == Counted(p)
      decreases |ptr|
    {
      len := len + 1;
      ptr := Drop(ptr, if ptr[0] == '\\' then 2 else 1);
    }
  }

  /** The second pass: what is written, and what is left. */
  method DecodeLiteral(p: string) returns (out: string, ptr: string)
    ensures (out, ptr) == Unescape(p)
  {
    out, ptr := "", p;
    assert "" + Unescape(p).0 == Unescape(p).0;
    while Head(ptr) != '\"' && Head(ptr) != NUL
      invariant Unescape(p) == (out + Unescape(ptr).0, Unescape(ptr).1)
      decreases |ptr|
    {
      ghost var before, was := out, ptr;
      var piece, passed := DecodeOne(ptr);
      out, ptr := out + piece, Drop(ptr, passed);
      assert before + (piece + Unescape(ptr).0) == out + Unescape(ptr).0;
    }
    assert out + "" == out;
  }

  method DecodeOne(ptr: string) returns (piece: string, passed: nat)
    requires Head(ptr) != '\"' && Head(ptr) != NUL
    ensures passed >= 1 && Unescape(ptr).0 == piece + Unescape(Drop(ptr, passed)).0
    ensures Unescape(ptr).1 == Unescape(Drop(ptr, passed)).1
  {
    if ptr[0] != '\\' {
      return [ptr[0]], 1;
    } else if At(ptr, 1) == 'u' {
      var escape := UnicodeEscape(ptr);
      return escape.0, escape.1;
    } else {
      return [Unmark(At(ptr, 1))], 2;
    }
  }

  /** A string literal: counted first, then decoded; len is the room allocated for it, less the NUL. */
  method ReadString(p: string) returns (r: Parsed<string>, len: nat)
    ensures r == ParseString(p)
    ensures r.Ok? && WellEscaped(p[1..]) ==> |r.value| <= len
  {
    if Head(p) != '\"' {
      return Fail, 0;
    }
    len := CountLiteral(p[1..]);
    var out, ptr := DecodeLiteral(p[1..]);
    if WellEscaped(p[1..]) {
      WritesFit(p[1..]);
    }
    r := Ok(out, if Head(ptr) == '\"' then ptr[1..] else ptr);
  }

  method ReadValue(p: string) returns (r: Parsed<Json>)
    ensures r == ParseValue(p)
    decreases |p|, 1
  {
    if "null" <= p {
      r := Ok(Null, p[4..]);
    } else if "false" <= p {
      r := Ok(False, p[5..]);
    } else if "true" <= p {
      r := Ok(True, p[4..]);
    } else if Head(p) == '\"' {
      var s, _ := ReadString(p);
      r := Ok(Str(s.value), s.rest);
    } else if Head(p) == '-' || IsDigit(Head(p)) {
      var n := ReadNumber(p);
      r := if n.Ok? then Ok(Number(n.value), n.rest) else Inexact;
    } else if Head(p) == '[' {
      r := ReadArray(p);
    } else if Head(p) == '{' {
      r := ReadObject(p);
    } else {
      r := Fail;
    }
  }

  /** What the item loop still has to do after some items, at the text behind the last one. */
  ghost function MoreItems(items: seq<Json>, value: string): Parsed<seq<Json>>
  {
    if Head(value) == ',' then
      var (more, rest) :- ParseItems(value[1..]);
      Ok(items + more, rest)
    else if Head(value) == ']' then Ok(items, value[1..])
    else Fail
  }

  method ReadArray(p: string) returns (r: Parsed<Json>)
    requires Head(p) == '['
    ensures r == ParseArray(p)
    decreases |p|, 0
  {
    var value := SkipBlanks(p[1..]);
    if Head(value) == ']' {
      return Ok(Arr([]), value[1..]);
    }
    ghost var all := ParseItems(value);
    value := SkipBlanks(value);
    var child := ReadValue(value);
    if !child.Ok? {
      return if child.Fail? then Fail else Inexact;
    }
    var items := [child.value];
    value := SkipBlanks(child.rest);
    while Head(value) == ','
      invariant all == MoreItems(items, value)
      invariant |value| < |p|
      decreases |value|
    {
      ghost var before, done := value, items;
      value := SkipBlanks(value[1..]);
      child := ReadValue(value);
      if !child.Ok? {
        return if child.Fail? then Fail else Inexact;
      }
      items := items + [child.value];
      value := SkipBlanks(child.rest);
      ItemsAssociate(done, child.value, before, value);
    }
    if Head(value) == ']' {
      return Ok(Arr(items), value[1..]);
    }
    r := Fail;
  }

  lemma ItemsAssociate(done: seq<Json>, v: Json, before: string, value: string)
    requires Head(before) == ','
    requires ParseItems(before[1..]) == MoreItems([v], value)
    ensures MoreItems(done, before) == MoreItems(done + [v], value)
  {
    if Head(value) == ',' && ParseItems(value[1..]).Ok? {
      var more := ParseItems(value[1..]).value;
      assert done + ([v] + more) == done + [v] + more;
    }
  }

  /** One member of an object: name, colon, value. */
  method ReadMember(p: string) returns (r: Parsed<Member>)
    ensures r == ParseMember(p)
    decreases |p|, 2
  {
    var value := SkipBlanks(p);
    var name, _ := ReadString(value);
    if !name.Ok? {
      return Fail;
    }
    value := SkipBlanks(name.rest);
    if Head(value) != ':' {
      return Fail;
    }
    value := SkipBlanks(value[1..]);
    var child := ReadValue(value);
    if !child.Ok? {
      return if child.Fail? then Fail else Inexact;
    }
    r := Ok(Member(name.value, child.value), child.rest);
  }

  ghost function MoreMembers(members: seq<Member>, value: string): Parsed<seq<Member>>
  {
    if Head(value) == ',' then
      var (more, rest) :- ParseMembers(value[1..]);
      Ok(members + more, rest)
    else if Head(value) == '}' then Ok(members, value[1..])
    else Fail
  }

  method ReadObject(p: string) returns (r: Parsed<Json>)
    requires Head(p) == '{'
    ensures r == ParseObject(p)
    decreases |p|, 0
  {
    var value := SkipBlanks(p[1..]);
    if Head(value) == '}' {
      return Ok(Obj([]), value[1..]);
    }
    ghost var all := ParseMembers(value);
    var child := ReadMember(value);
    if !child.Ok? {
      return if child.Fail? then Fail else Inexact;
    }
    var members := [child.value];
    value := SkipBlanks(child.rest);
    while Head(value) == ','
      invariant all == MoreMembers(members, value)
      invariant |value| < |p|
      decreases |value|
    {
      ghost var before, done := value, members;
      child := ReadMember(value[1..]);
      if !child.Ok? {
        return if child.Fail? then Fail else Inexact;
      }
      members := members + [child.value];
      value := SkipBlanks(child.rest);
      MembersAssociate(done, child.value, before, value);
    }
    if Head(value) == '}' {
      return Ok(Obj(members), value[1..]);
    }
    r := Fail;
  }

  lemma MembersAssociate(done: seq<Member>, m: Member, before: string, value: string)
    requires Head(before) == ','
    requires ParseMembers(before[1..]) == MoreMembers([m], value)
    ensures MoreMembers(done, before) == MoreMembers(done + [m], value)
  {
    if Head(value) == ',' && ParseMembers(value[1..]).Ok? {
      var more := ParseMembers(value[1..]).value;
      assert done + ([m] + more) == done + [m] + more;
    }
  }
}
