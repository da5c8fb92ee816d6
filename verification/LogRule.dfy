/** Rules of the logger: which levels and categories a rule puts out, and its level bitmap. */
module LogRule {

  type Bitmap = b: seq<bv8> | |b| == 32 witness seq(32, _ => 0)

  /** One configured rule; the level is -1 when its name is in no level list. */
  datatype Rule = Rule(category: string, compareChar: char, level: int, bitmap: Bitmap)

  const NO_LEVELS: Bitmap :=
    [0, 0, 0, 0, 0, 0, 0, 0, 0, 0, 0, 0, 0, 0, 0, 0, 0, 0, 0, 0, 0, 0, 0, 0, 0, 0, 0, 0, 0, 0, 0, 0]

  /** Bit k of a byte, counted from the left. */
  predicate Bit8(x: bv8, k: nat)
    requires k < 8
  {
    (x >> (7 - k)) & 1 == 1
  }

  /** The bit a category tests for a level. */
  predicate Bit(b: Bitmap, lv: nat)
    requires lv < 256
  {
    Bit8(b[lv / 8], lv % 8)
  }

  /** zlog_rule_output: does an event of this level go out? */
  predicate Outputs(compareChar: char, level: int, event: int)
  {
    match compareChar
    case '*' => true
    case '.' => event >= level
    case '=' => event == level
    case '!' => event != level
    case _ => false
  }

  /** 1 << (7 - r), stored in a byte: nothing is left of it for r = -1. */
  function OneBit(r: int): bv8
    requires -1 <= r < 8
  {
    (((1 as bv32) << (7 - r)) & 0xFF) as bv8
  }

  /** ~(0xFF << (8 - r)), stored in a byte. */
  function BitsFrom(r: int): bv8
    requires -1 <= r < 8
  {
    (!((0xFF as bv32) << (8 - r)) & 0xFF) as bv8
  }

  lemma OneBitAt(r: int, k: nat)
    requires -1 <= r < 8 && k < 8
    ensures Bit8(OneBit(r), k) <==> k == r
  {
  }

  lemma BitsFromAt(r: int, k: nat)
    requires -1 <= r < 8 && k < 8
    ensures Bit8(BitsFrom(r), k) <==> k >= r
  {
  }

  lemma BitOps(x: bv8, y: bv8, k: nat)
    requires k < 8
    ensures Bit8(x | y, k) <==> Bit8(x, k) || Bit8(y, k)
    ensures Bit8(x & y, k) <==> Bit8(x, k) && Bit8(y, k)
    ensures Bit8(!x, k) <==> !Bit8(x, k)
    ensures Bit8(0xFF, k) && !Bit8(0, k)
  {
  }

  /** memset of n bytes from a position on. */
  method Memset(a: array<bv8>, from: nat, x: bv8, n: nat)
    requires from + n <= a.Length
    modifies a
    ensures forall i :: 0 <= i < a.Length ==> a[i] == if from <= i < from + n then x else old(a[i])
  {
    forall i | from <= i < from + n {
      a[i] := x;
    }
  }

  /** The bitmap of a rule, as zlog_rule_new fills it: a bit for every level that the rule puts out. */
  method NewBitmap(compareChar: char, level: int) returns (bitmap: Bitmap)
    requires compareChar in {'=', '!', '*', '.'} && -1 <= level < 256
    ensures forall lv: nat :: lv < 256 ==> (Bit(bitmap, lv) <==> Outputs(compareChar, level, lv))
    ensures compareChar == '=' ==> forall lv: nat :: lv < 256 ==> (Bit(bitmap, lv) <==> lv == level)
    ensures compareChar == '!' ==> forall lv: nat :: lv < 256 ==> (Bit(bitmap, lv) <==> lv != level)
    ensures compareChar == '.' ==> forall lv: nat :: lv < 256 ==> (Bit(bitmap, lv) <==> lv >= level)
    ensures compareChar == '*' ==> forall lv: nat :: lv < 256 ==> Bit(bitmap, lv)
  {
    var a := new bv8[32];
    var at, r := if level < 0 then 0 else level / 8, if level < 0 then level else level % 8;
    match compareChar {
    case '=' =>
      Memset(a, 0, 0, 32);
      a[at] := a[at] | OneBit(r);
    case '!' =>
      Memset(a, 0, 0xFF, 32);
      a[at] := a[at] & !OneBit(r);
    case '*' =>
      Memset(a, 0, 0xFF, 32);
    case '.' =>
      Memset(a, 0, 0, 32);
      a[at] := a[at] | BitsFrom(r);
      Memset(a, at + 1, 0xFF, 32 - at - 1);
    }
    bitmap := a[..];
    forall lv: nat | lv < 256
      ensures Bit(bitmap, lv) <==> Outputs(compareChar, level, lv)
    {
      ByteIsRight(compareChar, level, at, r, bitmap[lv / 8], lv);
    }
  }

  lemma ByteIsRight(compareChar: char, level: int, at: int, r: int, x: bv8, lv: nat)
    requires compareChar in {'=', '!', '*', '.'} && -1 <= level < 256 && lv < 256
    requires at == (if level < 0 then 0 else level / 8) && r == if level < 0 then level else level % 8
    requires compareChar == '=' ==> x == if lv / 8 == at then 0 | OneBit(r) else 0
    requires compareChar == '!' ==> x == if lv / 8 == at then 0xFF & !OneBit(r) else 0xFF
    requires compareChar == '*' ==> x == 0xFF
    requires compareChar == '.' ==>
      x == if lv / 8 == at then 0 | BitsFrom(r) else if lv / 8 > at then 0xFF else 0
    ensures Bit8(x, lv % 8) <==> Outputs(compareChar, level, lv)
  {
    var k := lv % 8;
    OneBitAt(r, k);
    BitsFromAt(r, k);
    BitOps(0, OneBit(r), k);
    BitOps(0, BitsFrom(r), k);
    BitOps(0xFF, !OneBit(r), k);
    BitOps(OneBit(r), 0, k);
  }

  // Categories: exact names, "*" for all, "aa_" for aa and everything that starts with aa_.

  /** The first n characters compared, as strncmp does; past its end a string reads as NUL. */
  function SameFront(s: string, t: string, n: nat): bool
  {
    if n == 0 then true
    else if s == [] || t == [] then s == [] && t == []
    else s[0] == t[0] && SameFront(s[1..], t[1..], n - 1)
  }

  /** zlog_rule_match_category. */
  function MatchCategory(pattern: string, name: string): bool
    requires pattern != ""
  {
    if pattern == "*" then true
    else if pattern == name then true
    else if pattern[|pattern| - 1] == '_' then
      var len := if |name| == |pattern| - 1 then |pattern| - 1 else |pattern|;
      SameFront(pattern, name, len)
    else false
  }

  lemma {:induction false} SameFrontIsPrefix(s: string, t: string, n: nat)
    requires n <= |s|
    ensures SameFront(s, t, n) <==> s[..n] <= t
    decreases n
  {
    if n > 0 && t != [] {
      SameFrontIsPrefix(s[1..], t[1..], n - 1);
      assert s[..n] == [s[0]] + s[1..][..n - 1];
      assert t == [t[0]] + t[1..];
    }
  }

  /** What the pattern language means. */
  lemma MatchMeans(pattern: string, name: string)
    requires pattern != ""
    ensures MatchCategory(pattern, name) <==>
      || pattern == "*"
      || pattern == name
      || (pattern[|pattern| - 1] == '_' && (pattern <= name || pattern[..|pattern| - 1] == name))
  {
    SameFrontIsPrefix(pattern, name, |pattern|);
    SameFrontIsPrefix(pattern, name, |pattern| - 1);
    assert pattern[..|pattern|] == pattern;
  }

  /** zlog_rule_is_wastebin. */
  predicate IsWastebin(r: Rule)
  {
    r.category == "!"
  }

  /** A rule as zlog_rule_new leaves it. */
  ghost predicate WellMade(r: Rule)
  {
    && r.category != "" && r.compareChar in {'=', '!', '*', '.'} && -1 <= r.level < 256
    && forall lv: nat :: lv < 256 ==> (Bit(r.bitmap, lv) <==> Outputs(r.compareChar, r.level, lv))
  }
}
