/**
 The recursive-descent parser of cJSON as functions on the text that is left: a C pointer into the
 text is the suffix it points at, and past the end every character reads as NUL.
 */
module JsonParse {
  import opened Decimal
  import opened JsonText

  /** Inexact: the text goes on as a fraction or an exponent, whose double value is not modelled. */
  datatype Parsed<+T> = Fail | Inexact | Ok(value: T, rest: string)
  {
    predicate IsFailure() { !Ok? }

    function PropagateFailure<U>(): Parsed<U>
      requires IsFailure()
    {
      if Fail? then Fail else Inexact
    }

    function Extract(): (T, string)
      requires !IsFailure()
    {
      (value, rest)
    }
  }

  function At(p: string, k: nat): char
  {
    if k < |p| then p[k] else NUL
  }

  function Head(p: string): char
  {
    At(p, 0)
  }

  function Drop(p: string, k: nat): (r: string)
    ensures |r| <= |p|
    ensures k > 0 && p != [] ==> |r| < |p|
  {
    if k <= |p| then p[k..] else []
  }

  function Skip(p: string): (r: string)
    ensures |r| <= |p|
    decreases |p|
  {
    if p != [] && NUL != p[0] <= ' ' then Skip(p[1..]) else p
  }

  predicate IsHex(c: char)
  {
    '0' <= c <= '9' || 'A' <= c <= 'F' || 'a' <= c <= 'f'
  }

  function HexValue(c: char): nat
    requires IsHex(c)
  {
    if '0' <= c <= '9' then c as int - '0' as int
    else if 'A' <= c <= 'F' then 10 + c as int - 'A' as int
    else 10 + c as int - 'a' as int
  }

  /** The number of four hex digits, 0 when one of them is none. */
  function Hex4(p: string): nat
  {
    if IsHex(At(p, 0)) && IsHex(At(p, 1)) && IsHex(At(p, 2)) && IsHex(At(p, 3)) then
      ((HexValue(p[0]) * 16 + HexValue(p[1])) * 16 + HexValue(p[2])) * 16 + HexValue(p[3])
    else 0
  }

  /** (x | 0x80) & 0xBF: the low six bits under the mark of a continuation byte. */
  function Continuation(x: nat): char
  {
    (0x80 + x % 64) as char
  }

  /** A code point as one to four bytes, last byte first in the source, by its size class. */
  function Transcode(uc: nat): string
    requires uc < 0x11_0000
  {
    if uc < 0x80 then [uc as char]
    else if uc < 0x800 then [(0xC0 + uc / 64) as char, Continuation(uc)]
    else if uc < 0x1_0000 then [(0xE0 + uc / 64 / 64) as char, Continuation(uc / 64), Continuation(uc)]
    else [(0xF0 + uc / 64 / 64 / 64) as char, Continuation(uc / 64 / 64), Continuation(uc / 64), Continuation(uc)]
  }

  /** What a backslash and the character after it stand for. */
  function Unmark(c: char): char
  {
    match c
    case 'b' => BACKSPACE
    case 'f' => FORMFEED
    case 'n' => '\n'
    case 'r' => '\r'
    case 't' => '\t'
    case _ => c
  }

  /** One \u escape, p at the backslash: what is written and how many characters are passed. */
  function UnicodeEscape(p: string): (r: (string, nat))
    ensures r.1 == 6 || r.1 == 12
  {
    var uc := Hex4(Drop(p, 2));
    if 0xDC00 <= uc <= 0xDFFF || uc == 0 then ("", 6)
    else if 0xD800 <= uc <= 0xDBFF then
      if At(p, 6) != '\\' || At(p, 7) != 'u' then ("", 6)
      else
        var uc2 := Hex4(Drop(p, 8));
        if uc2 < 0xDC00 || uc2 > 0xDFFF then ("", 12)
        else (Transcode(0x1_0000 + uc % 0x400 * 0x400 + uc2 % 0x400), 12)
    else (Transcode(uc), 6)
  }

  /** The body of a string literal up to its closing quote or the end. */
  function Unescape(p: string): (r: (string, string))
    ensures |r.1| <= |p|
    decreases |p|
  {
    if Head(p) == '\"' || Head(p) == NUL then ([], p)
    else
      var (out, passed) :=
        if p[0] != '\\' then ([p[0]], 1)
        else if At(p, 1) == 'u' then UnicodeEscape(p)
        else ([Unmark(At(p, 1))], 2);
      var (more, rest) := Unescape(Drop(p, passed));
      (out + more, rest)
  }

  function ParseString(p: string): (r: Parsed<string>)
    ensures r.Ok? ==> |r.rest| < |p|
  {
    if Head(p) != '\"' then Fail
    else
      var (out, rest) := Unescape(p[1..]);
      Ok(out, if Head(rest) == '\"' then rest[1..] else rest)
  }

  /** Digits read on from a value. */
  function ScanDigits(n: nat, p: string): (r: (nat, string))
    ensures |r.1| <= |p|
    decreases |p|
  {
    if p != [] && IsDigit(p[0]) then ScanDigits(10 * n + DigitValue(p[0]), p[1..]) else (n, p)
  }

  predicate IsInt32(n: int)
  {
    -0x8000_0000 <= n <= 0x7FFF_FFFF
  }

  /** A number; one with a fraction or an exponent, or beyond 32 bits, is not represented here. */
  function ParseNumber(p: string): (r: Parsed<int>)
    requires Head(p) == '-' || IsDigit(Head(p))
    ensures r.Ok? ==> |r.rest| < |p|
  {
    var q := if Head(p) == '-' then p[1..] else p;
    var q0 := if Head(q) == '0' then q[1..] else q;
    var scan: (int, string) := if '1' <= Head(q0) <= '9' then ScanDigits(0, q0) else (0, q0);
    var n, rest := if Head(p) == '-' then -scan.0 else scan.0, scan.1;
    if (Head(rest) == '.' && IsDigit(At(rest, 1))) || Head(rest) == 'e' || Head(rest) == 'E' then Inexact
    else if !IsInt32(n) then Inexact
    else Ok(n, rest)
  }

  function ParseValue(p: string): (r: Parsed<Json>)
    ensures r.Ok? ==> |r.rest| < |p|
    decreases |p|, 2
  {
    if "null" <= p then Ok(Null, p[4..])
    else if "false" <= p then Ok(False, p[5..])
    else if "true" <= p then Ok(True, p[4..])
    else if Head(p) == '\"' then
      var (s, rest) :- ParseString(p);
      Ok(Str(s), rest)
    else if Head(p) == '-' || IsDigit(Head(p)) then
      var (n, rest) :- ParseNumber(p);
      Ok(Number(n), rest)
    else if Head(p) == '[' then ParseArray(p)
    else if Head(p) == '{' then ParseObject(p)
    else Fail
  }

  function ParseArray(p: string): (r: Parsed<Json>)
    requires Head(p) == '['
    ensures r.Ok? ==> |r.rest| < |p|
    decreases |p|, 1
  {
    var q := Skip(p[1..]);
    if Head(q) == ']' then Ok(Arr([]), q[1..])
    else
      var (items, rest) :- ParseItems(q);
      Ok(Arr(items), rest)
  }

  /** Values separated by commas, up to the closing bracket. */
  function ParseItems(p: string): (r: Parsed<seq<Json>>)
    ensures r.Ok? ==> |r.rest| < |p|
    decreases |p|, 3
  {
    var (v, after) :- ParseValue(Skip(p));
    var q := Skip(after);
    if Head(q) == ',' then
      var (more, rest) :- ParseItems(q[1..]);
      Ok([v] + more, rest)
    else if Head(q) == ']' then Ok([v], q[1..])
    else Fail
  }

  function ParseObject(p: string): (r: Parsed<Json>)
    requires Head(p) == '{'
    ensures r.Ok? ==> |r.rest| < |p|
    decreases |p|, 1
  {
    var q := Skip(p[1..]);
    if Head(q) == '}' then Ok(Obj([]), q[1..])
    else
      var (members, rest) :- ParseMembers(q);
      Ok(Obj(members), rest)
  }

  /** A name, a colon and a value. */
  function ParseMember(p: string): (r: Parsed<Member>)
    ensures r.Ok? ==> |r.rest| < |p|
    decreases |p|, 3
  {
    var (name, colon) :- ParseString(Skip(p));
    var q := Skip(colon);
    if Head(q) != ':' then Fail
    else
      var (v, rest) :- ParseValue(Skip(q[1..]));
      Ok(Member(name, v), rest)
  }

  /** Members separated by commas, up to the closing brace. */
  function ParseMembers(p: string): (r: Parsed<seq<Member>>)
    ensures r.Ok? ==> |r.rest| < |p|
    decreases |p|, 4
  {
    var (m, after) :- ParseMember(p);
    var q := Skip(after);
    if Head(q) == ',' then
      var (more, rest) :- ParseMembers(q[1..]);
      Ok([m] + more, rest)
    else if Head(q) == '}' then Ok([m], q[1..])
    else Fail
  }

  /** cJSON_Parse: leading blanks are passed, trailing text is left. */
  function Parse(text: string): Parsed<Json>
  {
    ParseValue(Skip(text))
  }
}
