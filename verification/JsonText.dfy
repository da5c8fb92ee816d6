/** JSON values and the text that the printers of cJSON give them. */
module JsonText {
  import opened Decimal

  datatype Json =
    | Null
    | False
    | True
    | Number(n: int)
    | Str(s: string)
    | Arr(items: seq<Json>)
    | Obj(members: seq<Member>)

  datatype Member = Member(name: string, value: Json)

  const NUL := '\0'
  const BACKSPACE := '\U{8}'
  const FORMFEED := '\U{C}'

  /** C strings hold no NUL; a number is a 32-bit int. */
  ghost predicate Printable(v: Json)
  {
    match v
    case Number(n) => -0x8000_0000 <= n <= 0x7FFF_FFFF
    case Str(s) => NUL !in s
    case Arr(items) => forall i :: 0 <= i < |items| ==> Printable(items[i])
    case Obj(ms) => forall i :: 0 <= i < |ms| ==> NUL !in ms[i].name && Printable(ms[i].value)
    case _ => true
  }

  predicate NeedsEscape(c: char)
  {
    c < ' ' || c == '\"' || c == '\\'
  }

  function Hex2(n: nat): string
    requires n < 256
  {
    [Digit(n / 16), Digit(n % 16)]
  }

  /** The letter that a short escape puts after the backslash, NUL when there is no short escape. */
  function Mark(c: char): char
  {
    if c == '\\' || c == '\"' then c
    else if c == BACKSPACE then 'b'
    else if c == FORMFEED then 'f'
    else if c == '\n' then 'n'
    else if c == '\r' then 'r'
    else if c == '\t' then 't'
    else NUL
  }

  /** One character of a string literal. */
  function EscapeChar(c: char): string
  {
    if !NeedsEscape(c) then [c]
    else if Mark(c) != NUL then ['\\', Mark(c)]
    else "\\u00" + Hex2(c as int)
  }

  function Escape(s: string): string
  {
    if s == [] then [] else EscapeChar(s[0]) + Escape(s[1..])
  }

  function Quote(s: string): string
  {
    "\"" + Escape(s) + "\""
  }

  function Tabs(n: int): string
  {
    if n <= 0 then "" else "\t" + Tabs(n - 1)
  }

  /** Text that only the formatted printer puts out. */
  function If(fmt: bool, s: string): string
  {
    if fmt then s else ""
  }

  /** The text of a value at a nesting depth, formatted or not. */
  function Text(v: Json, depth: nat, fmt: bool): string
    decreases v, 1, 0
  {
    match v
    case Null => "null"
    case False => "false"
    case True => "true"
    case Number(n) => Signed(n)
    case Str(s) => Quote(s)
    case Arr(items) => if items == [] then "[]" else "[" + ItemsText(v, 0, depth, fmt) + "]"
    case Obj(members) =>
      if members == [] then "{" + If(fmt, "\n" + Tabs(depth - 1)) + "}"
      else "{" + If(fmt, "\n") + MembersText(v, 0, depth + 1, fmt) + If(fmt, Tabs(depth)) + "}"
  }

  /** The items from the i-th on, with their separators. */
  function ItemsText(v: Json, i: nat, depth: nat, fmt: bool): string
    requires v.Arr? && i < |v.items|
    decreases v, 0, |v.items| - i
  {
    var t := Text(v.items[i], depth + 1, fmt);
    if i + 1 < |v.items| then t + "," + If(fmt, " ") + ItemsText(v, i + 1, depth, fmt) else t
  }

  /** The members from the i-th on, printed at the members' depth. */
  function MembersText(v: Json, i: nat, depth: nat, fmt: bool): string
    requires v.Obj? && i < |v.members|
    decreases v, 0, |v.members| - i
  {
    var t := MemberText(v, i, depth, fmt);
    if i + 1 < |v.members| then t + "," + If(fmt, "\n") + MembersText(v, i + 1, depth, fmt) else t + If(fmt, "\n")
  }

  function MemberText(v: Json, i: nat, depth: nat, fmt: bool): string
    requires v.Obj? && i < |v.members|
    decreases v, 0, 0
  {
    If(fmt, Tabs(depth)) + Quote(v.members[i].name) + ":" + If(fmt, "\t") + Text(v.members[i].value, depth, fmt)
  }
}
