/** Records of a shared-memory block and the order of their index slices. */
module ShmRecords {
  import opened Bytes

  /** One record, cut at its index: the bytes before, the indexed slice, the bytes after. */
  datatype Record = Record(before: seq<Byte>, key: seq<Byte>, after: seq<Byte>)

  /** Every index slice of a block is condLen bytes long. */
  ghost predicate Uniform(s: seq<Record>, condLen: nat)
  {
    forall i :: 0 <= i < |s| ==> |s[i].key| == condLen
  }

  ghost function K(r: Record): nat
  {
    BigEndian(r.key)
  }

  /** memcmp of two records' index slices. */
  function Compare(x: Record, y: Record): (c: int)
    requires |x.key| == |y.key|
    ensures c < 0 <==> K(x) < K(y)
    ensures c > 0 <==> K(x) > K(y)
    ensures c == 0 <==> x.key == y.key
  {
    MemcmpIsNumericOrder(x.key, y.key);
    Memcmp(x.key, y.key)
  }

  ghost predicate Ascending(s: seq<Record>)
  {
    forall i, j :: 0 <= i < j < |s| ==> K(s[i]) <= K(s[j])
  }

  /** Ascending, said with memcmp alone. */
  lemma AscendingIsMemcmpOrder(s: seq<Record>, condLen: nat)
    requires Uniform(s, condLen)
    ensures Ascending(s) <==> forall i, j :: 0 <= i < j < |s| ==> Memcmp(s[i].key, s[j].key) <= 0
  {
    forall i, j | 0 <= i < j < |s|
      ensures K(s[i]) <= K(s[j]) <==> Memcmp(s[i].key, s[j].key) <= 0
    {
      MemcmpIsNumericOrder(s[i].key, s[j].key);
    }
  }
}
