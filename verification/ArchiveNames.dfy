/** How the log rotater names its archives and reads their numbers back. */
module ArchiveNames {
  import opened Decimal
  import opened Options
  import opened Glob

  const MAXLEN_PATH := 1024

  /** The log file, and the parts of the archive path around its number: "aa.log", "aa.", ".log", 5. */
  datatype Naming = Naming(base: string, prefix: string, suffix: string, width: nat)

  /** An archive: the number read from its name, and its path. */
  datatype File = File(index: int, path: string)

  function Path(c: Naming, j: nat): string {
    c.prefix + (ZeroPadded(Numeral(j, 10), c.width) + c.suffix)
  }

  function EndsInSlash(p: string): bool {
    p != "" && p[|p| - 1] == '/'
  }

  // What sscanf reads for "%d".

  function Blanks(s: string): (n: nat)
    ensures n <= |s|
  {
    if s != [] && (s[0] == ' ' || 9 <= s[0] as int <= 13) then 1 + Blanks(s[1..]) else 0
  }

  function DigitRun(s: string): (ds: string)
    ensures AllDigits(ds)
  {
    if s != [] && IsDigit(s[0]) then [s[0]] + DigitRun(s[1..]) else []
  }

  /** The number and how many characters it took; (0, 0) when there is none. */
  function ScanInt(s: string): (int, nat) {
    var blanks := Blanks(s);
    var t := s[blanks..];
    var sign := if t != [] && t[0] in "+-" then 1 else 0;
    var ds := DigitRun(t[sign..]);
    var value: int := Scanned(0, ds);
    if |ds| == 0 then (0, 0) else (if t[0] == '-' then -value else value, blanks + sign + |ds|)
  }

  /** What follows the prefix in length; a path that is shorter leaves NULs there. */
  function Behind(c: Naming, p: string): string {
    if |c.prefix| <= |p| then p[|c.prefix|..] else ""
  }

  /** zlog_file_check_new: the log file itself, directories, overlong paths and narrow numbers are left out. */
  function CheckNew(c: Naming, p: string): Option<File>
    requires p != ""
  {
    if p == c.base || EndsInSlash(p) || |p| > MAXLEN_PATH then None
    else
      var scan := ScanInt(Behind(c, p));
      if c.width != 0 && scan.1 < c.width then None else Some(File(scan.0, p))
  }

  /** The glob pattern; the text around the star is the user's, and goes in as it is. */
  function Pattern(c: Naming): string {
    c.prefix + ("*" + c.suffix)
  }

  predicate Globbed(c: Naming, p: string) {
    p != "" && Match(Pattern(c), p, true)
  }

  /** Does the rotater take a file of this path for an archive? */
  predicate IsArchive(c: Naming, p: string) {
    Globbed(c, p) && CheckNew(c, p).Some?
  }

  /** Does the rotater take exactly the paths of the form prefix, anything, suffix? */
  ghost predicate GlobsLiterally(c: Naming) {
    forall p :: p != "" ==> (Globbed(c, p) <==> FitsLiterally(c.prefix, c.suffix, p))
  }

  /** It does exactly when every character around the star is matched by itself alone. */
  lemma GlobsLiterallyExactly(c: Naming)
    ensures GlobsLiterally(c) <==> Inert(c.prefix, c.suffix)
  {
    MatchesLiterallyExactly(c.prefix, c.suffix);
    assert forall p :: Globbed(c, p) <==> p != "" && Match(c.prefix + ("*" + c.suffix), p, true);
  }

  /**
   * The path of the archives is literal for glob, the log file is not named like an archive, and an archive not
   * like a directory.
   */
  ghost predicate Sensible(c: Naming) {
    && Inert(c.prefix, c.suffix)
    && !EndsInSlash(c.suffix)
    && forall j: nat :: Path(c, j) != c.base
  }

  /** Without an archive path the rotater appends a dot and a number to the log file's name. */
  function DefaultNaming(base: string): Naming {
    Naming(base, base + ".", "", 0)
  }

  /** Such a naming is sensible exactly when the log file's name is literal for glob. */
  lemma DefaultIsSensible(base: string)
    ensures Sensible(DefaultNaming(base)) <==> Inert(base + ".", "")
    ensures Plain(base) ==> Sensible(DefaultNaming(base))
  {
    forall j: nat ensures Path(DefaultNaming(base), j) != base {
      assert |Path(DefaultNaming(base), j)| > |base|;
    }
    if Plain(base) {
      PlainIsInert(base + ".", "");
    }
  }

  // What becomes of other names.

  /** A character in brackets hides every archive of the log file from the rotater. */
  lemma BracketsHideArchives(a: string, x: char, b: string, j: nat)
    requires Plain(a) && Plain(b) && Plain([x]) && x !in "!^]/-"
    ensures var c := DefaultNaming(a + ("[" + [x] + "]" + b));
      !Globbed(c, Path(c, j))
  {
    var c := DefaultNaming(a + ("[" + [x] + "]" + b));
    var p, rest := Pattern(c), b + "." + "*";
    var q := "[" + [x] + "]" + rest;
    assert p == a + q;
    assert Path(c, j)[|a|] == '[' && a <= Path(c, j);
    PlainIsSingle(a, "");
    PlainFront(a, q, Path(c, j), true);
    BracketMisses(x, rest, Path(c, j)[|a|..]);
  }

  lemma BracketMisses(x: char, rest: string, s: string)
    requires Plain([x]) && x !in "!^]/-" && s != "" && s[0] == '['
    ensures forall lead :: !Match("[" + [x] + "]" + rest, s, lead)
  {
    var p := "[" + [x] + "]" + rest;
    assert [x][0] != '[';
    BracketOfOne(x, rest);
    assert p[1..] == [x] + "]" + rest && p[0] == '[';
  }

  /** A question mark takes the archives of other log files for its own. */
  lemma QuestionTakesForeign(a: string, x: char, b: string, j: nat)
    requires Plain(a) && Plain(b) && Plain([x]) && x != '/' && x != '.'
    requires |Path(DefaultNaming(a + [x] + b), j)| <= MAXLEN_PATH
    ensures IsArchive(DefaultNaming(a + "?" + b), Path(DefaultNaming(a + [x] + b), j))
  {
    var c, d := DefaultNaming(a + "?" + b), DefaultNaming(a + [x] + b);
    var s, num := Path(d, j), ZeroPadded(Numeral(j, 10), 0);
    PaddedScans(j, 0);
    var rest, more := b + "." + "*", b + "." + num;
    assert Pattern(c) == a + ("?" + rest);
    assert s == a + ([x] + more);
    PlainFront(a, "?" + rest, s, true);
    assert s[|a|..] == [x] + more && ("?" + rest)[1..] == rest && ([x] + more)[1..] == more;
    DigitsMatch(b, num);
    assert s[|s| - 1] == num[|num| - 1] && s != c.base;
  }

  lemma DigitsMatch(b: string, num: string)
    requires Plain(b) && AllDigits(num)
    ensures Match(b + "." + "*", b + "." + num, false)
  {
    var front := b + ".";
    assert Plain(front) && front <= front + num && (front + num)[|front|..] == num;
    PlainFront(front, "*", front + num, false);
    assert "*" + "" == "*" && num[|num|..] == "" && num[..|num|] == num;
    StarThenLiteral("", num, false);
  }

  // Reading back the number of an archive.

  lemma {:induction false} ScannedConcat(n: nat, s: string, t: string)
    requires AllDigits(s) && AllDigits(t)
    ensures Scanned(n, s + t) == Scanned(Scanned(n, s), t)
    decreases |s|
  {
    if s == [] {
      assert s + t == t;
    } else {
      assert (s + t)[1..] == s[1..] + t;
      ScannedConcat(10 * n + DigitValue(s[0]), s[1..], t);
    }
  }

  lemma {:induction false} ScannedGrows(m: nat, n: nat, ds: string)
    requires AllDigits(ds) && m < n
    ensures m <= Scanned(m, ds) < Scanned(n, ds)
    decreases |ds|
  {
    if ds != [] {
      ScannedGrows(10 * m + DigitValue(ds[0]), 10 * n + DigitValue(ds[0]), ds[1..]);
    }
  }

  lemma {:induction false} ScannedZeros(k: nat)
    ensures AllDigits(Repeat('0', k)) && Scanned(0, Repeat('0', k)) == 0
  {
    if k > 0 {
      assert Repeat('0', k)[1..] == Repeat('0', k - 1);
      ScannedZeros(k - 1);
    }
  }

  lemma {:induction false} DigitRunConcat(s: string, t: string)
    requires AllDigits(s)
    ensures DigitRun(s + t) == s + DigitRun(t)
    decreases |s|
  {
    if s == [] {
      assert s + t == t;
    } else {
      assert (s + t)[1..] == s[1..] + t;
      DigitRunConcat(s[1..], t);
    }
  }

  lemma PaddedScans(j: nat, width: nat)
    ensures var s := ZeroPadded(Numeral(j, 10), width);
      |s| >= width && |s| >= 1 && AllDigits(s) && Scanned(0, s) == j
  {
    NumeralScans(j);
    var digits := Numeral(j, 10);
    if width > |digits| {
      ScannedZeros(width - |digits|);
      ScannedConcat(0, Repeat('0', width - |digits|), digits);
    }
  }

  /** The number that is read from the name of archive j: digits that follow it in the name belong to it. */
  function IndexOf(c: Naming, j: nat): nat {
    Scanned(j, DigitRun(c.suffix))
  }

  lemma ScanStartingWithDigits(num: string, rest: string)
    requires num != "" && AllDigits(num)
    ensures ScanInt(num + rest) == (Scanned(Scanned(0, num), DigitRun(rest)), |num| + |DigitRun(rest)|)
  {
    var s, tail := num + rest, DigitRun(rest);
    assert IsDigit(s[0]) by {
      assert s[0] == num[0];
    }
    ScanNoBlanks(s);
    assert DigitRun(s) == num + tail by {
      DigitRunConcat(num, rest);
    }
    var run := num + tail;
    assert Scanned(0, run) == Scanned(Scanned(0, num), tail) by {
      ScannedConcat(0, num, tail);
    }
  }

  lemma ScanNoBlanks(s: string)
    requires s != "" && IsDigit(s[0])
    ensures ScanInt(s) == (Scanned(0, DigitRun(s)), |DigitRun(s)|)
  {
    assert Blanks(s) == 0 && s[0..] == s;
  }

  lemma ArchiveScans(c: Naming, j: nat)
    ensures ScanInt(Path(c, j)[|c.prefix|..]).0 == IndexOf(c, j)
    ensures ScanInt(Path(c, j)[|c.prefix|..]).1 >= c.width
  {
    var num := ZeroPadded(Numeral(j, 10), c.width);
    assert Path(c, j)[|c.prefix|..] == num + c.suffix;
    PaddedScans(j, c.width);
    ScanStartingWithDigits(num, c.suffix);
  }

  lemma NumberIsGlobbed(c: Naming, num: string)
    requires Inert(c.prefix, c.suffix) && !EndsInSlash(c.suffix) && num != "" && AllDigits(num)
    ensures Globbed(c, c.prefix + (num + c.suffix)) && !EndsInSlash(c.prefix + (num + c.suffix))
  {
    var p, q := c.prefix + (num + c.suffix), num + c.suffix;
    assert p[|c.prefix|..] == q && q[|num|..] == c.suffix && q[..|num|] == num;
    assert IsDigit(num[0]) && IsDigit(num[|num| - 1]) && '/' !in num && q[0] == num[0];
    assert FitsLiterally(c.prefix, c.suffix, p);
    InertMatches(c.prefix, c.suffix, p);
    assert p[|p| - 1] == (if c.suffix == "" then num[|num| - 1] else c.suffix[|c.suffix| - 1]);
  }

  /** The rotater recognises every archive that it names. */
  lemma ArchiveIsRead(c: Naming, j: nat)
    requires Sensible(c) && |Path(c, j)| <= MAXLEN_PATH
    ensures IsArchive(c, Path(c, j)) && CheckNew(c, Path(c, j)) == Some(File(IndexOf(c, j), Path(c, j)))
  {
    var num, p := ZeroPadded(Numeral(j, 10), c.width), Path(c, j);
    assert Globbed(c, p) && !EndsInSlash(p) by {
      PaddedScans(j, c.width);
      NumberIsGlobbed(c, num);
    }
    ArchiveScans(c, j);
    assert Behind(c, p) == p[|c.prefix|..];
    ReadWhenScanned(c, p, IndexOf(c, j));
  }

  lemma ReadWhenScanned(c: Naming, p: string, index: int)
    requires Globbed(c, p) && !EndsInSlash(p) && p != c.base && |p| <= MAXLEN_PATH
    requires ScanInt(Behind(c, p)).0 == index && ScanInt(Behind(c, p)).1 >= c.width
    ensures CheckNew(c, p) == Some(File(index, p))
  {
  }

  lemma IndexGrows(c: Naming, i: nat, j: nat)
    requires i < j
    ensures i <= IndexOf(c, i) < IndexOf(c, j)
  {
    ScannedGrows(i, j, DigitRun(c.suffix));
  }

  /** Different archives have different names. */
  lemma PathsDiffer(c: Naming, i: nat, j: nat)
    ensures Path(c, i) == Path(c, j) <==> i == j
  {
    ArchiveScans(c, i);
    ArchiveScans(c, j);
    if i < j {
      IndexGrows(c, i, j);
    } else if j < i {
      IndexGrows(c, j, i);
    }
  }

  // What is made of any other path.

  /** A path that is left out whatever its number. */
  predicate LeftOut(c: Naming, p: string) {
    p == c.base || (p != "" && p[|p| - 1] == '/') || |p| > MAXLEN_PATH
  }

  /** At most one sign. */
  predicate IsSign(sign: string) {
    sign == [] || sign == ['-'] || sign == ['+']
  }

  function WithSign(sign: string, n: int): int {
    if sign != [] && sign[0] == '-' then -n else n
  }

  /** A number behind the prefix is the archive's, with its sign; with the sign it must have the width asked for. */
  lemma NumberedIs(c: Naming, front: string, sign: string, ds: seq<nat>, tail: string)
    requires |front| == |c.prefix| && IsSign(sign)
    requires ds != [] && (forall i :: 0 <= i < |ds| ==> ds[i] < 10) && (tail != "" ==> !IsDigit(tail[0]))
    ensures var p := front + (sign + (DigitsText(ds) + tail));
      CheckNew(c, p) ==
        if LeftOut(c, p) || |sign| + |ds| < c.width then None
        else Some(File(WithSign(sign, Horner(10, ds)), p))
  {
    var digits, number := DigitsText(ds), DigitsText(ds) + tail;
    DigitsScanned(ds);
    RunStopsAt(digits, tail);
    assert number[0] == digits[0];
    ScanSigned(sign, digits, number);
    CheckedBehind(c, front, sign + number);
  }

  lemma RunStopsAt(digits: string, tail: string)
    requires AllDigits(digits) && (tail != "" ==> !IsDigit(tail[0]))
    ensures DigitRun(digits + tail) == digits
  {
    DigitRunConcat(digits, tail);
    assert digits + [] == digits;
  }

  lemma CheckedBehind(c: Naming, front: string, rest: string)
    requires |front| == |c.prefix| && rest != ""
    ensures var p, scan := front + rest, ScanInt(rest);
      CheckNew(c, p) == if LeftOut(c, p) || (c.width != 0 && scan.1 < c.width) then None else Some(File(scan.0, p))
  {
    assert (front + rest)[|front|..] == rest;
  }

  lemma SignChars(c: char)
    ensures c in "+-" <==> c == '+' || c == '-'
  {
  }

  /** What is scanned of a text that starts with no blank. */
  lemma ScanFrom(t: string, sign: nat, digits: string)
    requires t != "" && t[0] as int > 32
    requires sign == (if t[0] == '+' || t[0] == '-' then 1 else 0) && DigitRun(t[sign..]) == digits && digits != ""
    ensures ScanInt(t) == (if t[0] == '-' then -(Scanned(0, digits) as int) else Scanned(0, digits), sign + |digits|)
  {
    SignChars(t[0]);
    assert t[0..] == t;
  }

  lemma ScanSigned(sign: string, digits: string, number: string)
    requires IsSign(sign) && number != "" && IsDigit(number[0])
    requires AllDigits(digits) && DigitRun(number) == digits && digits != ""
    ensures ScanInt(sign + number) == (WithSign(sign, Scanned(0, digits)), |sign| + |digits|)
  {
    var t := sign + number;
    assert t[|sign|..] == number && t[0] == if sign == [] then number[0] else sign[0];
    ScanFrom(t, |sign|, digits);
  }

  /** Without a number there the path counts as archive 0, unless the naming asks for a width. */
  lemma UnnumberedIs(c: Naming, front: string, rest: string)
    requires |front| == |c.prefix| && front + rest != ""
    requires rest != "" ==> !IsDigit(rest[0]) && rest[0] != '-' && rest[0] != '+' && rest[0] as int > 32
    ensures var p := front + rest;
      CheckNew(c, p) == if LeftOut(c, p) || c.width > 0 then None else Some(File(0, p))
  {
    var p := front + rest;
    assert Behind(c, p) == rest;
    assert Blanks(rest) == 0 && rest[0..] == rest;
  }

  /** All that a rotation uses of the names: how archives are named, which paths are read as one, and their numbers. */
  datatype Scheme = Scheme(base: string, path: nat -> string, read: string -> Option<File>, index: nat -> int)

  function SchemeOf(c: Naming): Scheme {
    Scheme(c.base, (j: nat) => Path(c, j), p => if Globbed(c, p) then CheckNew(c, p) else None,
           (j: nat) => IndexOf(c, j))
  }

  ghost predicate Sound(s: Scheme) {
    && (forall j: nat :: s.path(j) != s.base)
    && (forall j: nat :: |s.path(j)| <= MAXLEN_PATH ==> s.read(s.path(j)) == Some(File(s.index(j), s.path(j))))
    && (forall i: nat, j: nat :: i < j ==> s.index(i) < s.index(j) && s.path(i) != s.path(j))
    && (forall j: nat :: j <= s.index(j))
    && (forall p :: s.read(p).Some? ==> s.read(p).value.path == p && p != s.base)
  }

  /**
   * The log file is never taken for an archive, every archive is recognised, different archives have different
   * names, and a larger number is read from a later one.
   */
  lemma SchemeIsSound(c: Naming)
    requires Sensible(c)
    ensures Sound(SchemeOf(c))
  {
    var s := SchemeOf(c);
    forall j: nat | |s.path(j)| <= MAXLEN_PATH ensures s.read(s.path(j)) == Some(File(s.index(j), s.path(j))) {
      ArchiveIsRead(c, j);
    }
    forall i: nat, j: nat | i < j ensures s.index(i) < s.index(j) && s.path(i) != s.path(j) {
      IndexGrows(c, i, j);
      PathsDiffer(c, i, j);
    }
    forall j: nat ensures j <= s.index(j) {
      IndexGrows(c, j, j + 1);
    }
  }
}
