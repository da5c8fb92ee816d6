/** The growing-buffer printer: every piece is written at the offset after room was ensured. */
module JsonBuffer {
  import opened Decimal
  import opened JsonText
  import opened JsonTextFacts

  /** The least power of two that is not below x. */
  function Pow2gt(x: nat): (r: nat)
    ensures r >= x && r >= 1
    decreases x
  {
    if x <= 1 then 1 else 2 * Pow2gt((x + 1) / 2)
  }

  /** It is a power of two, and half of it is below x. */
  lemma {:induction false} Pow2gtIsLeast(x: nat)
    requires x >= 1
    ensures Pow2gt(x) < 2 * x && exists k: nat :: Pow2gt(x) == Pow(2, k)
  {
    if x == 1 {
      assert Pow2gt(x) == Pow(2, 0);
    } else {
      Pow2gtIsLeast((x + 1) / 2);
      var k: nat :| Pow2gt((x + 1) / 2) == Pow(2, k);
      assert Pow(2, k + 1) == 2 * Pow(2, k);
      assert k > 0 ==> Pow(2, k) == 2 * Pow(2, k - 1);
    }
  }

  /** The same on 32-bit words: the highest bit is copied into all lower ones. */
  function Pow2gtWord(x: bv32): bv32 {
    var a := x - 1;
    var b := a | (a >> 1);
    var c := b | (b >> 2);
    var d := c | (c >> 4);
    var e := d | (d >> 8);
    (e | (e >> 16)) + 1
  }

  /** A power of two, and the least one that is not below x. */
  lemma Pow2gtWordIsLeast(x: bv32)
    requires 1 <= x <= 0x4000_0000
    ensures var r := Pow2gtWord(x);
      r != 0 && r & (r - 1) == 0 && r >= x && r >> 1 < x
  {
  }

  /** Is the start that print_value returns the place where the text of v begins? */
  predicate StartIsRight(v: Json, depth: nat, fmt: bool, start: int) {
    !fmt || !v.Obj? || v.members == [] || depth == start
  }

  /** It never is for a formatted object with members that is itself the value of a member. */
  lemma MemberStartIsWrong(v: Json, w: string, name: string, depth: nat)
    requires v.Obj? && v.members != []
    ensures !StartIsRight(v, depth, true, |w + Tabs(depth) + Quote(name) + ":\t"|)
  {
    TabsLength(depth);
  }

  /**
   * For instance in {"a": {"b": 1}}, whose inner object begins at offset 8 and is at depth 1; in [{"b": 1}], where
   * it begins at offset 1, the start is right.
   */
  lemma NestedStarts()
    ensures var inner := Obj([Member("b", Number(1))]);
      && |"{\n" + Tabs(1) + Quote("a") + ":\t"| == 8
      && "{\n" + Tabs(1) + Quote("a") + ":\t" <= Text(Obj([Member("a", inner)]), 0, true)
      && !StartIsRight(inner, 1, true, 8)
      && StartIsRight(inner, 1, true, 1)
  {
    var inner := Obj([Member("b", Number(1))]);
    assert Tabs(1) == "\t" + Tabs(0) && Quote("a") == "\"a\"" by {
      EscapePlain("a");
    }
    OneMemberText("a", inner);
  }

  lemma OneMemberText(name: string, v: Json)
    ensures Text(Obj([Member(name, v)]), 0, true) ==
            "{\n" + Tabs(1) + Quote(name) + ":\t" + (Text(v, 1, true) + "\n" + Tabs(0) + "}")
  {
    var all, more := Obj([Member(name, v)]), Text(v, 1, true);
    assert MembersText(all, 0, 1, true) == MemberText(all, 0, 1, true) + "\n";
    assert MemberText(all, 0, 1, true) == Tabs(1) + Quote(name) + ":" + "\t" + more;
  }

  class PrintBuffer {
    var buffer: array<char>
    var length: int
    var offset: int

    ghost predicate Valid()
      reads this
    {
      length == buffer.Length && 0 <= offset <= length
    }

    /** What has been printed and passed. */
    ghost function Written(): string
      requires Valid()
      reads this, buffer
    {
      buffer[..offset]
    }

    constructor (prebuffer: nat)
      requires prebuffer > 0
      ensures Valid() && fresh(buffer) && offset == 0
    {
      buffer := new char[prebuffer];
      length := prebuffer;
      offset := 0;
    }

    /** Room for needed characters at the offset; a moved buffer keeps all old characters. */
    method Ensure(needed: nat) returns (ptr: int)
      requires Valid()
      modifies this`buffer, this`length
      ensures Valid() && ptr == offset && offset + needed <= length
      ensures buffer == old(buffer) || fresh(buffer)
      ensures Written() == old(Written())
      ensures old(buffer).Length <= buffer.Length && buffer[..old(buffer.Length)] == old(buffer[..])
    {
      var total := needed + offset;
      if total <= length {
        return offset;
      }
      var newsize := Pow2gt(total);
      var newbuffer := new char[newsize];
      forall i | 0 <= i < length {
        newbuffer[i] := buffer[i];
      }
      length := newsize;
      buffer := newbuffer;
      ptr := offset;
    }

    /** The offset moved to the end of the string that starts there. */
    method Update() returns (end: int)
      requires Valid() && exists k :: offset <= k < length && buffer[k] == NUL
      ensures offset <= end < length && buffer[end] == NUL
      ensures forall k :: offset <= k < end ==> buffer[k] != NUL
    {
      ghost var nul :| offset <= nul < length && buffer[nul] == NUL;
      end := offset;
      while buffer[end] != NUL
        invariant offset <= end <= nul
        invariant forall k :: offset <= k < end ==> buffer[k] != NUL
        decreases nul - end
      {
        end := end + 1;
      }
    }

    /** Characters stored one after the other from ptr on. */
    method Store(ptr: int, s: string)
      requires Valid() && 0 <= ptr && ptr + |s| <= length
      modifies buffer
      ensures buffer[..ptr + |s|] == old(buffer[..ptr]) + s
      ensures buffer[ptr + |s|..] == old(buffer[ptr + |s|..])
    {
      var i := 0;
      while i < |s|
        invariant 0 <= i <= |s|
        invariant forall k :: 0 <= k < buffer.Length ==>
          buffer[k] == if ptr <= k < ptr + i then s[k - ptr] else old(buffer[k])
      {
        buffer[ptr + i] := s[i];
        i := i + 1;
      }
    }

    /** A piece that the offset moves past, with or without a NUL behind it. */
    method Emit(s: string, needed: nat, nul: bool)
      requires Valid() && needed >= |s| + (if nul then 1 else 0)
      modifies this, buffer
      ensures Valid() && (buffer == old(buffer) || fresh(buffer))
      ensures Written() == old(Written()) + s
    {
      ghost var w := Written();
      var ptr := Ensure(needed);
      if nul {
        StoreString(ptr, s);
      } else {
        Store(ptr, s);
      }
      assert buffer[..ptr + |s|] == w + s;
      offset := offset + |s|;
    }

    /** A piece with its NUL, left for the caller to move past. */
    method Place(s: string, needed: nat) returns (out: int)
      requires Valid() && needed > |s|
      modifies this, buffer
      ensures Valid() && (buffer == old(buffer) || fresh(buffer))
      ensures out == offset == old(offset) && offset + |s| < length
      ensures buffer[..offset + |s|] == old(Written()) + s && buffer[offset + |s|] == NUL
    {
      ghost var w := Written();
      out := Ensure(needed);
      assert buffer[..out] == w;
      StoreString(out, s);
    }

    /** A piece and its NUL, as strcpy stores them. */
    method StoreString(ptr: int, s: string)
      requires Valid() && 0 <= ptr && ptr + |s| < length
      modifies buffer
      ensures buffer[..ptr + |s|] == old(buffer[..ptr]) + s && buffer[ptr + |s|] == NUL
    {
      Store(ptr, s);
      ghost var t := buffer[..ptr + |s|];
      buffer[ptr + |s|] := NUL;
      assert buffer[..ptr + |s|] == t;
    }

    /** A string literal; the escaped form is written piece by piece into the room counted for it. */
    method PrintString(s: string) returns (out: int)
      requires Valid() && NUL !in s
      modifies this, buffer
      ensures Valid() && (buffer == old(buffer) || fresh(buffer))
      ensures out == offset == old(offset) && offset + |Quote(s)| < length
      ensures buffer[..offset + |Quote(s)|] == old(Written()) + Quote(s) && buffer[offset + |Quote(s)|] == NUL
    {
      var flag, len := Measure(s);
      if !flag {
        EscapePlain(s);
        out := Place("\"" + s + "\"", |s| + 3);
        return;
      }
      out := Ensure(len + 3);
      StoreQuoted(out, s, len);
    }

    /** Quote, escaped characters, quote and NUL. */
    method StoreQuoted(at: int, s: string, len: nat)
      requires Valid() && len == |Escape(s)| && 0 <= at && at + len + 3 <= length
      modifies buffer
      ensures buffer[..at + len + 2] == old(buffer[..at]) + Quote(s) && buffer[at + len + 2] == NUL
    {
      ghost var w := buffer[..at];
      Store(at, "\"");
      StoreEscaped(at + 1, s, len);
      Store(at + 1 + len, "\"");
      ghost var q, e := "\"", Escape(s);
      assert w + q + e + q == w + (q + e + q);
      buffer[at + len + 2] := NUL;
    }

    /** The escaped characters, one after the other, into the room counted for them. */
    method StoreEscaped(at: int, s: string, len: nat)
      requires Valid() && len == |Escape(s)| && 0 <= at && at + len <= length
      modifies buffer
      ensures buffer[..at + len] == old(buffer[..at]) + Escape(s)
    {
      var ptr := at;
      var k := 0;
      ghost var w := buffer[..at];
      while k < |s|
        invariant 0 <= k <= |s|
        invariant ptr == at + |Escape(s[..k])| <= at + len
        invariant buffer[..ptr] == w + Escape(s[..k])
      {
        EscapeStep(s, k);
        StoreChar(ptr, s[k], w, Escape(s[..k]));
        ptr := ptr + Cost(s[k]);
        k := k + 1;
      }
      assert s[..|s|] == s;
    }

    method StoreChar(ptr: int, c: char, ghost w: string, ghost before: string)
      requires Valid() && 0 <= ptr && ptr + Cost(c) <= length && buffer[..ptr] == w + before
      modifies buffer
      ensures buffer[..ptr + Cost(c)] == w + (before + EscapeChar(c))
    {
      Store(ptr, EscapeChar(c));
      assert w + before + EscapeChar(c) == w + (before + EscapeChar(c));
    }

    /** After w a text t stands in the buffer with its NUL, and the offset is somewhere in it. */
    ghost predicate Printed(w: string, t: string)
      reads this, buffer
    {
      && Valid()
      && |w| <= offset <= |w| + |t| < length
      && buffer[..|w| + |t|] == w + t
      && buffer[|w| + |t|] == NUL
    }

    /** The offset moved past the text just printed. */
    method Pass(ghost w: string, ghost t: string)
      requires Printed(w, t) && NUL !in t
      modifies this`offset
      ensures Valid() && Written() == w + t
    {
      ghost var all := buffer[..|w| + |t|];
      assert forall k :: |w| <= k < |w| + |t| ==> buffer[k] == all[k] == t[k - |w|];
      offset := Update();
    }

    method PrintNumber(n: int) returns (out: int)
      requires Valid() && -0x8000_0000 <= n <= 0x7FFF_FFFF
      modifies this, buffer
      ensures (buffer == old(buffer) || fresh(buffer)) && Printed(old(Written()), Signed(n))
      ensures out == old(offset)
    {
      SignedLength(n);
      if n == 0 {
        out := Place("0", 2);
      } else {
        out := Place(Signed(n), 21);
      }
    }

    method PrintValue(v: Json, depth: nat, fmt: bool) returns (out: int)
      requires Valid() && Printable(v)
      modifies this, buffer
      ensures (buffer == old(buffer) || fresh(buffer)) && Printed(old(Written()), Text(v, depth, fmt))
      ensures out == old(offset) <==> StartIsRight(v, depth, fmt, old(offset))
      decreases v, 1
    {
      match v
      case Null => out := Place("null", 5);
      case False => out := Place("false", 6);
      case True => out := Place("true", 5);
      case Number(n) => out := PrintNumber(n);
      case Str(s) => out := PrintString(s);
      case Arr(items) => out := PrintArray(v, depth, fmt);
      case Obj(members) => out := PrintObject(v, depth, fmt);
    }

    method PrintArray(v: Json, depth: nat, fmt: bool) returns (out: int)
      requires Valid() && v.Arr? && Printable(v)
      modifies this, buffer
      ensures (buffer == old(buffer) || fresh(buffer)) && Printed(old(Written()), Text(v, depth, fmt))
      ensures out == old(offset)
      decreases v, 0
    {
      if v.items == [] {
        out := Place("[]", 3);
        return;
      }
      out := offset;
      ghost var w := Written();
      Emit("[", 1, false);
      var k := 0;
      while k < |v.items|
        invariant 0 <= k <= |v.items|
        invariant Valid() && (buffer == old(buffer) || fresh(buffer))
        invariant Written() + ItemsFrom(v, k, depth, fmt) == w + "[" + ItemsFrom(v, 0, depth, fmt)
      {
        ghost var before := Written();
        PrintItem(v, k, depth, fmt);
        ItemsFromStep(v, k, depth, fmt, before);
        k := k + 1;
      }
      ghost var now := Written();
      assert now + "" == now;
      var last := Place("]", 2);
      ghost var all := ItemsText(v, 0, depth, fmt);
      assert w + "[" + all + "]" == w + ("[" + all + "]");
    }

    /** One item and, unless it is the last, its separator. */
    method PrintItem(v: Json, k: nat, depth: nat, fmt: bool)
      requires Valid() && v.Arr? && k < |v.items| && Printable(v)
      modifies this, buffer
      ensures Valid() && (buffer == old(buffer) || fresh(buffer))
      ensures Written() == old(Written()) + Text(v.items[k], depth + 1, fmt)
                           + (if k + 1 < |v.items| then "," + If(fmt, " ") else "")
      decreases v, 0, 0
    {
      ghost var w, t := Written(), Text(v.items[k], depth + 1, fmt);
      PrintPassed(v.items[k], depth + 1, fmt);
      if k + 1 < |v.items| {
        var len := if fmt then 2 else 1;
        Emit("," + If(fmt, " "), len + 1, true);
      } else {
        assert w + t + "" == w + t;
      }
    }

    method PrintObject(v: Json, depth: nat, fmt: bool) returns (out: int)
      requires Valid() && v.Obj? && Printable(v)
      modifies this, buffer
      ensures (buffer == old(buffer) || fresh(buffer)) && Printed(old(Written()), Text(v, depth, fmt))
      ensures out == old(offset) <==> !fmt || v.members == [] || depth == old(offset)
      decreases v, 0
    {
      if v.members == [] {
        out := PrintEmptyObject(depth, fmt);
        return;
      }
      var i := offset;
      PrintSomeMembers(v, depth, fmt);
      // the indentation loop reuses i, which held the start of the object
      if fmt {
        i := depth;
      }
      out := i;
    }

    method PrintSomeMembers(v: Json, depth: nat, fmt: bool)
      requires Valid() && v.Obj? && v.members != [] && Printable(v)
      modifies this, buffer
      ensures (buffer == old(buffer) || fresh(buffer)) && Printed(old(Written()), Text(v, depth, fmt))
      decreases v, 0, 3
    {
      ghost var w := Written();
      OpenObject(v, depth, fmt);
      ghost var now, close := Written(), If(fmt, Tabs(depth)) + "}";
      CloseObject(depth, fmt);
      ObjectClosed(v, depth, fmt, w, now);
      assert |now + close| == |w| + |Text(v, depth, fmt)|;
    }

    method OpenObject(v: Json, depth: nat, fmt: bool)
      requires Valid() && v.Obj? && v.members != [] && Printable(v)
      modifies this, buffer
      ensures Valid() && (buffer == old(buffer) || fresh(buffer))
      ensures Written() == old(Written()) + ("{" + If(fmt, "\n")) + MembersText(v, 0, depth + 1, fmt)
      decreases v, 0, 2
    {
      var len := if fmt then 2 else 1;
      Emit("{" + If(fmt, "\n"), len + 1, true);
      PrintMembers(v, depth + 1, fmt);
    }

    method CloseObject(depth: nat, fmt: bool)
      requires Valid()
      modifies this, buffer
      ensures Valid() && (buffer == old(buffer) || fresh(buffer))
      ensures offset == old(offset) && offset + |If(fmt, Tabs(depth)) + "}"| < length
      ensures buffer[..offset + |If(fmt, Tabs(depth)) + "}"|] == old(Written()) + (If(fmt, Tabs(depth)) + "}")
      ensures buffer[offset + |If(fmt, Tabs(depth)) + "}"|] == NUL
    {
      TabsLength(depth);
      var last := Place(If(fmt, Tabs(depth)) + "}", if fmt then depth + 2 else 2);
    }

    method PrintEmptyObject(depth: nat, fmt: bool) returns (out: int)
      requires Valid()
      modifies this, buffer
      ensures (buffer == old(buffer) || fresh(buffer)) && Printed(old(Written()), Text(Obj([]), depth, fmt))
      ensures out == old(offset)
    {
      TabsLength(depth - 1);
      out := Place("{" + If(fmt, "\n" + Tabs(depth - 1)) + "}", if fmt then depth + 4 else 3);
    }

    method PrintMembers(v: Json, depth: nat, fmt: bool)
      requires Valid() && v.Obj? && v.members != [] && Printable(v)
      modifies this, buffer
      ensures Valid() && (buffer == old(buffer) || fresh(buffer))
      ensures Written() == old(Written()) + MembersText(v, 0, depth, fmt)
      decreases v, 0, 1
    {
      var k := 0;
      while k < |v.members|
        invariant 0 <= k <= |v.members|
        invariant Valid() && (buffer == old(buffer) || fresh(buffer))
        invariant Written() + MembersFrom(v, k, depth, fmt) == old(Written()) + MembersText(v, 0, depth, fmt)
      {
        ghost var before := Written();
        PrintMember(v, k, depth, fmt);
        MembersFromStep(v, k, depth, fmt, before);
        k := k + 1;
      }
      ghost var now := Written();
      assert now + "" == now;
    }

    /** Indentation, name, colon, value and what separates it from the next member. */
    method PrintMember(v: Json, k: nat, depth: nat, fmt: bool)
      requires Valid() && v.Obj? && k < |v.members| && Printable(v)
      modifies this, buffer
      ensures Valid() && (buffer == old(buffer) || fresh(buffer))
      ensures Written() == old(Written()) + MemberText(v, k, depth, fmt)
                           + ((if k + 1 < |v.members| then "," else "") + If(fmt, "\n"))
      decreases v, 0, 0
    {
      var m := v.members[k];
      ghost var w := Written();
      PrintName(m.name, depth, fmt);
      var len := if fmt then 2 else 1;
      Emit(":" + If(fmt, "\t"), len, false);
      PrintPassed(m.value, depth, fmt);
      MemberRegroup(w, If(fmt, Tabs(depth)), Quote(m.name), If(fmt, "\t"), Text(m.value, depth, fmt));
      len := (if fmt then 1 else 0) + (if k + 1 < |v.members| then 1 else 0);
      Emit((if k + 1 < |v.members| then "," else "") + If(fmt, "\n"), len + 1, true);
    }

    method PrintName(name: string, depth: nat, fmt: bool)
      requires Valid() && NUL !in name
      modifies this, buffer
      ensures Valid() && (buffer == old(buffer) || fresh(buffer))
      ensures Written() == old(Written()) + If(fmt, Tabs(depth)) + Quote(name)
    {
      Indent(depth, fmt);
      ghost var w := Written();
      var ignored := PrintString(name);
      EscapeHasNoNul(name);
      Pass(w, Quote(name));
    }

    method Indent(depth: nat, fmt: bool)
      requires Valid()
      modifies this, buffer
      ensures Valid() && (buffer == old(buffer) || fresh(buffer))
      ensures Written() == old(Written()) + If(fmt, Tabs(depth))
    {
      if fmt {
        TabsLength(depth);
        Emit(Tabs(depth), depth, false);
      }
    }

    method PrintPassed(v: Json, depth: nat, fmt: bool)
      requires Valid() && Printable(v)
      modifies this, buffer
      ensures Valid() && (buffer == old(buffer) || fresh(buffer))
      ensures Written() == old(Written()) + Text(v, depth, fmt)
      decreases v, 2
    {
      ghost var w := Written();
      var ignored := PrintValue(v, depth, fmt);
      TextHasNoNul(v, depth, fmt);
      Pass(w, Text(v, depth, fmt));
    }
  }

  /** cJSON_PrintBuffered: the returned pointer is the start of the text, for any positive first size. */
  method PrintBuffered(v: Json, prebuffer: nat, fmt: bool) returns (p: PrintBuffer, out: int)
    requires prebuffer > 0 && Printable(v)
    ensures fresh(p) && p.Printed("", Text(v, 0, fmt))
    ensures out == 0
  {
    p := new PrintBuffer(prebuffer);
    assert p.Written() == "";
    out := p.PrintValue(v, 0, fmt);
  }
}
