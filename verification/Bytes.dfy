/** Byte strings and the order that C's memcmp puts on them. */
module Bytes {

  type Byte = b: int | 0 <= b < 256

  /** memcmp on two byte strings of one length: the sign is that of the first difference. */
  function Memcmp(a: seq<Byte>, b: seq<Byte>): int
    requires |a| == |b|
  {
    if a == [] then 0
    else if a[0] != b[0] then a[0] - b[0]
    else Memcmp(a[1..], b[1..])
  }

  ghost function Pow256(n: nat): nat
  {
    if n == 0 then 1 else 256 * Pow256(n - 1)
  }

  /** The number a byte string denotes, most significant byte first. */
  ghost function BigEndian(a: seq<Byte>): nat
  {
    if a == [] then 0 else a[0] * Pow256(|a| - 1) + BigEndian(a[1..])
  }

  lemma ScaleUp(a: nat, b: nat, p: nat)
    requires a <= b
    ensures a * p <= b * p
  {
    assert (b - a) * p >= 0;
  }

  lemma LeadingDigit(a: nat, b: nat, p: nat, restA: nat, restB: nat)
    requires a < b && restA < p
    ensures a * p + restA < b * p + restB
  {
    ScaleUp(a + 1, b, p);
  }

  lemma {:induction false} BigEndianBound(a: seq<Byte>)
    ensures BigEndian(a) < Pow256(|a|)
  {
    if a != [] {
      BigEndianBound(a[1..]);
      ScaleUp(a[0], 255, Pow256(|a| - 1));
    }
  }

  /** memcmp on equally long strings is the order of the numbers they denote, hence a total order. */
  lemma {:induction false} MemcmpIsNumericOrder(a: seq<Byte>, b: seq<Byte>)
    requires |a| == |b|
    ensures Memcmp(a, b) < 0 <==> BigEndian(a) < BigEndian(b)
    ensures Memcmp(a, b) > 0 <==> BigEndian(a) > BigEndian(b)
    ensures Memcmp(a, b) == 0 <==> a == b
  {
    if a != [] {
      BigEndianBound(a[1..]);
      BigEndianBound(b[1..]);
      if a[0] < b[0] {
        LeadingDigit(a[0], b[0], Pow256(|a| - 1), BigEndian(a[1..]), BigEndian(b[1..]));
      } else if a[0] > b[0] {
        LeadingDigit(b[0], a[0], Pow256(|a| - 1), BigEndian(b[1..]), BigEndian(a[1..]));
      } else {
        MemcmpIsNumericOrder(a[1..], b[1..]);
        assert a == [a[0]] + a[1..] && b == [b[0]] + b[1..];
      }
    }
  }
}
