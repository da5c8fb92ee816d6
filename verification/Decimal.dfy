/** Decimal and hexadecimal numerals, as the C library prints and scans them. */
module Decimal {

  function Digit(d: nat): char
    requires d < 16
  {
    "0123456789abcdef"[d]
  }

  predicate IsDigit(c: char)
  {
    '0' <= c <= '9'
  }

  function DigitValue(c: char): nat
    requires IsDigit(c)
  {
    c as int - '0' as int
  }

  /** The numeral of n in the given base, without leading zeros. */
  function Numeral(n: nat, base: nat): string
    requires 2 <= base <= 16
    decreases n
  {
    if n < base then [Digit(n)] else Numeral(n / base, base) + [Digit(n % base)]
  }

  /** What "%d" prints. */
  function Signed(n: int): string
  {
    if n < 0 then "-" + Numeral(-n, 10) else Numeral(n, 10)
  }

  predicate AllDigits(s: string)
  {
    forall i :: 0 <= i < |s| ==> IsDigit(s[i])
  }

  /** The value scanned so far, after reading further digits. */
  function Scanned(n: nat, ds: string): nat
    requires AllDigits(ds)
    decreases ds
  {
    if ds == [] then n else Scanned(10 * n + DigitValue(ds[0]), ds[1..])
  }

  lemma {:induction false} ScannedSnoc(n: nat, ds: string, d: char)
    requires AllDigits(ds) && IsDigit(d)
    ensures Scanned(n, ds + [d]) == 10 * Scanned(n, ds) + DigitValue(d)
    decreases ds
  {
    if ds == [] {
      assert ([] + [d])[1..] == [];
    } else {
      ScannedSnoc(10 * n + DigitValue(ds[0]), ds[1..], d);
      assert (ds + [d])[1..] == ds[1..] + [d];
    }
  }

  /** Scanning a numeral gives the number back; only zero starts with the digit 0. */
  lemma {:induction false} NumeralScans(n: nat)
    ensures var s := Numeral(n, 10);
      && s != [] && AllDigits(s)
      && Scanned(0, s) == n
      && (s[0] == '0' <==> n == 0)
      && (n == 0 ==> s == "0")
  {
    if n >= 10 {
      NumeralScans(n / 10);
      ScannedSnoc(0, Numeral(n / 10, 10), Digit(n % 10));
    }
  }

  ghost function Pow(base: nat, k: nat): nat
  {
    if k == 0 then 1 else base * Pow(base, k - 1)
  }

  lemma DivideBelow(n: nat, base: nat, q: nat)
    requires base > 0 && n < base * q
    ensures n / base < q
  {
    assert n == base * (n / base) + n % base;
    assert base * (q - n / base) == base * q - base * (n / base);
    PositiveFactor(base, q - n / base);
  }

  lemma PositiveFactor(base: nat, x: int)
    requires base * x > 0
    ensures x > 0
  {
  }

  /** A number below base^k has at most k digits. */
  lemma {:induction false} NumeralLength(n: nat, base: nat, k: nat)
    requires 2 <= base <= 16 && k >= 1 && n < Pow(base, k)
    ensures 1 <= |Numeral(n, base)| <= k && '\0' !in Numeral(n, base)
    decreases k
  {
    if n >= base {
      DivideBelow(n, base, Pow(base, k - 1));
      NumeralLength(n / base, base, k - 1);
    }
  }

  /** n copies of a character. */
  function Repeat(c: char, n: nat): (s: string)
    ensures |s| == n && forall i :: 0 <= i < n ==> s[i] == c
  {
    seq(n, _ => c)
  }

  /** A number filled up with zeros on the left. */
  function ZeroPadded(digits: string, width: nat): string
  {
    if width > |digits| then Repeat('0', width - |digits|) + digits else digits
  }

  /** The number whose digits in the base are ds. */
  ghost function Horner(base: nat, ds: seq<nat>): nat
  {
    if ds == [] then 0 else Horner(base, ds[..|ds| - 1]) * base + ds[|ds| - 1]
  }

  /** The characters of s are the digits of n in the base, without leading zeros. */
  ghost predicate IsNumeral(s: string, base: nat, n: nat, ds: seq<nat>)
  {
    && |s| == |ds| >= 1 && Horner(base, ds) == n
    && (forall i :: 0 <= i < |ds| ==> ds[i] < base && ds[i] < 16 && s[i] == "0123456789abcdef"[ds[i]])
    && (|ds| > 1 ==> ds[0] != 0)
  }

  lemma HornerSnoc(base: nat, ds: seq<nat>, d: nat)
    ensures Horner(base, ds + [d]) == Horner(base, ds) * base + d
  {
    assert (ds + [d])[..|ds|] == ds;
  }

  lemma Divided(n: nat, base: nat)
    requires base > 0
    ensures n == n / base * base + n % base && n % base < base
    ensures n >= base ==> n / base > 0
  {
  }

  /** The digits of n. */
  ghost function Digits(n: nat, base: nat): seq<nat>
    requires 2 <= base <= 16
    decreases n
  {
    if n < base then [n] else Digits(n / base, base) + [n % base]
  }

  /** A numeral shows its number: digits below the base, without leading zeros. */
  lemma {:induction false} NumeralMeans(n: nat, base: nat)
    requires 2 <= base <= 16
    ensures IsNumeral(Numeral(n, base), base, n, Digits(n, base))
    ensures Digits(n, base)[0] == 0 ==> n == 0
    decreases n
  {
    Divided(n, base);
    if n >= base {
      NumeralMeans(n / base, base);
      HornerSnoc(base, Digits(n / base, base), n % base);
    } else {
      assert Horner(base, [n][..0]) == 0;
    }
  }

  /** The decimal digits as characters. */
  function DigitsText(ds: seq<nat>): string
    requires forall i :: 0 <= i < |ds| ==> ds[i] < 10
  {
    seq(|ds|, i requires 0 <= i < |ds| => "0123456789"[ds[i]])
  }

  lemma DecimalDigit(d: nat)
    requires d < 10
    ensures IsDigit("0123456789"[d]) && DigitValue("0123456789"[d]) == d
  {
  }

  lemma {:induction false} DigitsScanned(ds: seq<nat>)
    requires forall i :: 0 <= i < |ds| ==> ds[i] < 10
    ensures AllDigits(DigitsText(ds)) && Scanned(0, DigitsText(ds)) == Horner(10, ds)
  {
    if ds != [] {
      var n := |ds| - 1;
      var last := "0123456789"[ds[n]];
      DecimalDigit(ds[n]);
      DigitsScanned(ds[..n]);
      ScannedSnoc(0, DigitsText(ds[..n]), last);
      assert DigitsText(ds) == DigitsText(ds[..n]) + [last];
    }
  }

  /** Padding is zeros in front, up to the width. */
  lemma PaddedMeans(digits: string, width: nat)
    ensures var s := ZeroPadded(digits, width);
      var zeros := |s| - |digits|;
      && |s| == (if width > |digits| then width else |digits|)
      && (forall i :: 0 <= i < zeros ==> s[i] == '0')
      && s[zeros..] == digits
  {
  }
}
