/**
 * A shared segment as a record store: a header, data blocks growing up from it, and block descriptors growing
 * down from the end. Data and descriptors are kept by address.
 */
module ShmStore {
  import opened Options
  import opened Bytes
  import opened ShmRecords
  import Sorting = ShmSort
  import opened ShmSelect

  const HEAD := 20   // sizeof(struct shm_head)
  const DESC := 64   // sizeof(struct shm_block)

  datatype Descriptor = Descriptor(name: string, sortflag: bool, num: int, condoffset: int, condlen: int,
                                   pstart: int, pend: int, recsize: int)

  /** A block as its users see it. */
  datatype Block = Block(name: string, sorted: bool, records: seq<Record>)

  ghost predicate Shaped(r: Record, condoffset: int, condlen: int, recsize: int) {
    |r.before| == condoffset && |r.key| == condlen && |r.before| + |r.key| + |r.after| == recsize
  }

  /** The data of each block starts where that of the one before ends, the first right after the header. */
  ghost predicate Chained(ds: seq<Descriptor>, head: int) {
    && (forall k :: 0 <= k < |ds| ==> ds[k].pstart < ds[k].pend)
    && (forall k :: 0 < k < |ds| ==> ds[k].pstart == ds[k - 1].pend)
    && (if ds == [] then head == HEAD else ds[0].pstart == HEAD && ds[|ds| - 1].pend == head)
  }

  ghost predicate NamesDiffer(ds: seq<Descriptor>) {
    forall j, k :: 0 <= j < k < |ds| ==> ds[j].name != ds[k].name
  }

  lemma {:induction false} DataInOrder(ds: seq<Descriptor>, head: int, j: int, k: int)
    requires Chained(ds, head) && 0 <= j < k < |ds|
    ensures ds[j].pend <= ds[k].pstart
    decreases k - j
  {
    if j + 1 < k {
      DataInOrder(ds, head, j + 1, k);
    }
  }

  /** So the data of two blocks never overlap, and all of it lies between the header and pin_head. */
  lemma DataDisjoint(ds: seq<Descriptor>, head: int)
    requires Chained(ds, head)
    ensures forall j, k :: 0 <= j < k < |ds| ==> ds[j].pend <= ds[k].pstart
    ensures forall k :: 0 <= k < |ds| ==> HEAD <= ds[k].pstart < ds[k].pend <= head
  {
    forall j, k | 0 <= j < k < |ds| ensures ds[j].pend <= ds[k].pstart {
      DataInOrder(ds, head, j, k);
    }
  }

  lemma RecordCount(n: nat, sublen: nat)
    requires sublen > 0
    ensures (n * sublen) / sublen == n
  {
    var q, r := (n * sublen) / sublen, (n * sublen) % sublen;
    assert sublen * (n - q) == r;
    Multiple(sublen, n - q);
  }

  lemma Multiple(s: int, x: int)
    requires s > 0
    ensures x >= 1 ==> s * x >= s
    ensures x <= -1 ==> s * x <= -s
  {
    if x >= 1 {
      assert s * (x - 1) >= 0;
    } else if x <= -1 {
      assert s * (-1 - x) >= 0;
    }
  }

  lemma OneMoreBlock(ds: seq<Descriptor>, head: int, d: Descriptor)
    requires Chained(ds, head) && NamesDiffer(ds)
    requires d.pstart == head && d.pstart < d.pend
    requires forall k :: 0 <= k < |ds| ==> ds[k].name != d.name
    ensures Chained(ds + [d], d.pend) && NamesDiffer(ds + [d])
  {
  }

  lemma OneSorted(ds: seq<Descriptor>, head: int, k: int)
    requires Chained(ds, head) && NamesDiffer(ds) && 0 <= k < |ds|
    ensures var ds' := ds[k := ds[k].(sortflag := true)];
      Chained(ds', head) && NamesDiffer(ds')
  {
  }

  ghost predicate Holds(d: Descriptor, records: seq<Record>) {
    && d.num == |records| && 0 < d.recsize && d.pend - d.pstart == d.num * d.recsize && 0 <= d.condlen
    && (forall i :: 0 <= i < |records| ==> Shaped(records[i], d.condoffset, d.condlen, d.recsize))
    && (d.sortflag ==> Ascending(records))
  }

  class Segment {
    var size: int
    var fsize: int
    var pinHead: int
    var pinTail: int
    var blocknum: int
    var table: map<int, Descriptor>
    var data: map<int, array<Record>>
    /** The descriptors and the data of the blocks, in the order of their uploads. */
    ghost var descs: seq<Descriptor>
    ghost var arrays: seq<array<Record>>

    /** The header and the descriptors fit together: these fill exactly the space from pin_tail to the end. */
    ghost predicate Layout()
      reads this
    {
      && HEAD <= pinHead && 0 <= fsize && pinHead + fsize == pinTail && size <= Sorting.INT_MAX
      && blocknum == |descs| && pinTail == size - DESC * blocknum
      && (forall k :: 0 <= k < |descs| ==> At(k) in table && table[At(k)] == descs[k])
      && Chained(descs, pinHead) && NamesDiffer(descs)
    }

    /** Where the descriptor of block k is. */
    function At(k: int): int
      reads this`size
    {
      size - DESC * (k + 1)
    }

    /** Every block has records of its own, of the described number and shape, ascending once sorted. */
    ghost predicate StoredFor(ds: seq<Descriptor>)
      reads this`data, this`arrays, arrays
    {
      && |arrays| == |ds|
      && (forall k :: 0 <= k < |ds| ==>
            ds[k].pstart in data && data[ds[k].pstart] == arrays[k] && Holds(ds[k], arrays[k][..]))
      && (forall j, k :: 0 <= j < k < |arrays| ==> arrays[j] != arrays[k])
    }

    ghost predicate Valid()
      reads this, arrays
    {
      Layout() && StoredFor(descs)
    }

    ghost function Contents(): (bs: seq<Block>)
      reads this, arrays
      requires Valid()
      ensures |bs| == blocknum
      ensures forall k :: 0 <= k < |bs| ==> bs[k] == Block(descs[k].name, descs[k].sortflag, arrays[k][..])
    {
      seq(|descs|, k requires 0 <= k < |descs| && |arrays| == |descs| reads this, arrays =>
        Block(descs[k].name, descs[k].sortflag, arrays[k][..]))
    }

    /** Header, data, free space and descriptors lie one after the other, and no two pieces overlap. */
    lemma NothingOverlaps()
      requires Valid()
      ensures HEAD <= pinHead && pinHead + fsize == pinTail && pinTail <= size
      ensures forall j, k :: 0 <= j < k < blocknum ==> descs[j].pend <= descs[k].pstart && At(k) + DESC <= At(j)
      ensures forall k :: 0 <= k < blocknum ==>
        HEAD <= descs[k].pstart < descs[k].pend <= pinHead && pinTail <= At(k) && At(k) + DESC <= size
    {
      DataDisjoint(descs, pinHead);
    }

    /** A block may be searched by its index: the slices are of one length, and ascend once it is sorted. */
    lemma Searchable(k: nat)
      requires Valid() && k < blocknum
      ensures Uniform(Contents()[k].records, descs[k].condlen)
      ensures Contents()[k].sorted ==> Ascending(Contents()[k].records)
    {
      FitsInSegment(descs[k], arrays[k][..]);
    }

    /** shm_init, for a segment that has room for the header. */
    constructor (size: int)
      requires HEAD <= size <= Sorting.INT_MAX
      ensures Valid() && Contents() == [] && this.size == size && fsize == size - HEAD && arrays == []
    {
      this.size := size;
      fsize := size - HEAD;
      pinHead := HEAD;
      pinTail := size;
      blocknum := 0;
      table, data := map[], map[];
      descs, arrays := [], [];
    }

    /** A lookup's answer: the address of the descriptor with this name, if there is one. */
    ghost predicate Finds(name: string, p: Option<int>)
      reads this
    {
      match p
      case None => forall k :: 0 <= k < |descs| ==> descs[k].name != name
      case Some(at) => exists k :: 0 <= k < |descs| && at == At(k) && descs[k].name == name
    }

    /** Names differ, so every way of looking a name up finds the same block. */
    lemma FindsOne(name: string, p: Option<int>, q: Option<int>)
      requires Layout() && Finds(name, p) && Finds(name, q)
      ensures p == q
    {
    }

    /** The search of shm_getblockinfo and shm_setblockinfo, from the end of the segment down. */
    method FindFromEnd(name: string) returns (p: Option<int>)
      requires Layout()
      ensures Finds(name, p)
    {
      var ptr := size - DESC;
      var i := blocknum;
      while i > 0
        invariant 0 <= i <= blocknum && ptr == At(blocknum - i)
        invariant forall k :: 0 <= k < blocknum - i ==> descs[k].name != name
      {
        if table[ptr].name == name {
          return Some(ptr);
        }
        ptr := ptr - DESC;
        i := i - 1;
      }
      return None;
    }

    /** The search of shm_select, from pin_tail up. */
    method FindFromTail(name: string) returns (p: Option<int>)
      requires Layout()
      ensures Finds(name, p)
    {
      var ptr := pinTail;
      var i := blocknum;
      while i > 0
        invariant 0 <= i <= blocknum && ptr == At(i - 1)
        invariant forall k :: i <= k < blocknum ==> descs[k].name != name
      {
        if table[ptr].name == name {
          return Some(ptr);
        }
        ptr := ptr + DESC;
        i := i - 1;
      }
      return None;
    }

    lemma Named(name: string, p: Option<int>)
      requires Valid() && Finds(name, p) && p.Some?
      ensures exists k :: 0 <= k < blocknum && Contents()[k].name == name
    {
      var k :| 0 <= k < |descs| && descs[k].name == name;
      assert Contents()[k].name == name;
    }

    /** _shm_upload of len bytes, which are the given records; 0 is success. */
    method Upload(records: seq<Record>, len: nat, sublen: nat, condoffset: nat, condlen: nat, name: string)
        returns (rc: int)
      requires Valid()
      requires sublen > 0 ==> len == |records| * sublen
      requires forall i :: 0 <= i < |records| ==> Shaped(records[i], condoffset, condlen, sublen)
      modifies this
      ensures Valid() && size == old(size)
      ensures rc == 0 || rc == -1
      ensures rc == 0 <==> len > 0 && sublen > 0 && old(fsize) >= len + DESC
                           && forall k :: 0 <= k < old(blocknum) ==> old(Contents())[k].name != name
      ensures rc == 0 ==> Contents() == old(Contents()) + [Block(name, false, records)]
                          && fsize == old(fsize) - (len + DESC)
      ensures rc != 0 ==> Contents() == old(Contents()) && fsize == old(fsize)
      ensures forall i :: 0 <= i < |arrays| ==> arrays[i] in old(arrays) || fresh(arrays[i])
    {
      if len == 0 || sublen == 0 {
        return -1;
      }
      if fsize < len + DESC {
        return -1;
      }
      var p := FindFromEnd(name);
      if p.Some? {
        Named(name, p);
        return -1;
      }
      RecordCount(|records|, sublen);
      Write(records, len, Descriptor(name, false, len / sublen, condoffset, condlen, pinHead, pinHead + len, sublen));
      return 0;
    }

    /** The data go to pin_head, the descriptor to just below pin_tail. */
    method Write(records: seq<Record>, len: nat, d: Descriptor)
      requires Valid() && len > 0 && fsize >= len + DESC
      requires d.pstart == pinHead && d.pend == pinHead + len && Holds(d, records)
      requires forall k :: 0 <= k < |descs| ==> descs[k].name != d.name
      modifies this
      ensures Valid() && size == old(size) && fsize == old(fsize) - (len + DESC)
      ensures Contents() == old(Contents()) + [Block(d.name, d.sortflag, records)]
      ensures arrays != [] && arrays == old(arrays) + [arrays[|arrays| - 1]] && fresh(arrays[|arrays| - 1])
    {
      var a := new Record[|records|](i requires 0 <= i < |records| => records[i]);
      assert a[..] == records;
      Put(a, len, d);
    }

    method Put(a: array<Record>, len: nat, d: Descriptor)
      requires Valid() && a !in arrays && len > 0 && fsize >= len + DESC
      requires d.pstart == pinHead && d.pend == pinHead + len && Holds(d, a[..])
      requires forall k :: 0 <= k < |descs| ==> descs[k].name != d.name
      modifies this
      ensures Valid() && size == old(size) && fsize == old(fsize) - (len + DESC)
      ensures arrays == old(arrays) + [a] && descs == old(descs) + [d]
    {
      PutData(a, d);
      PutDescriptor(len, d);
    }

    method PutData(a: array<Record>, ghost d: Descriptor)
      requires Valid() && a !in arrays && d.pstart == pinHead && Holds(d, a[..])
      modifies this`data, this`arrays
      ensures Layout() && arrays == old(arrays) + [a] && StoredFor(descs + [d])
    {
      DataDisjoint(descs, pinHead);
      data := data[pinHead := a];
      arrays := arrays + [a];
    }

    method PutDescriptor(len: nat, d: Descriptor)
      requires Layout() && len > 0 && fsize >= len + DESC
      requires d.pstart == pinHead && d.pend == pinHead + len
      requires forall k :: 0 <= k < |descs| ==> descs[k].name != d.name
      modifies this`table, this`fsize, this`pinHead, this`pinTail, this`blocknum, this`descs
      ensures Layout() && descs == old(descs) + [d] && fsize == old(fsize) - (len + DESC)
    {
      OneMoreBlock(descs, pinHead, d);
      assert pinTail - DESC == At(|descs|) && forall k :: 0 <= k < |descs| ==> At(k) != At(|descs|);
      table := table[pinTail - DESC := d];
      fsize := fsize - (len + DESC);
      pinHead := pinHead + len;
      pinTail := pinTail - DESC;
      blocknum := blocknum + 1;
      descs := descs + [d];
    }

    /**
     * shm_select by index: the name is looked up from pin_tail, and the block searched by bisection if it is marked
     * sorted, record by record otherwise. front and back are the record-sized windows beside the block.
     */
    method Select(name: string, key: seq<Byte>, front: seq<Record>, back: seq<Record>)
        returns (found: bool, data: seq<Record>, ghost k: int)
      requires Valid() && forall i :: 0 <= i < |descs| && descs[i].name == name ==> descs[i].condlen == |key|
      requires Beside(front, back, key)
      ensures !found ==> forall i :: 0 <= i < blocknum ==> Contents()[i].name != name
      ensures found ==> 0 <= k < blocknum && Contents()[k].name == name && Selects(Contents()[k], key, front, back, data)
    {
      var p := FindFromTail(name);
      if p.None? {
        return false, [], -1;
      }
      k :| 0 <= k < |descs| && p.value == At(k) && descs[k].name == name;
      var d := table[p.value];
      data := SelectIn(this.data[d.pstart], d, key, front, back);
      found := true;
    }

    /** shm_qsort; 0 is success. */
    method Sort(name: string) returns (rc: int, ghost k: int)
      requires Valid()
      modifies this`table, this`descs, arrays
      ensures Valid() && fsize == old(fsize) && blocknum == old(blocknum)
      ensures rc == 0 || rc == -1
      ensures rc != 0 ==> Contents() == old(Contents()) && forall i :: 0 <= i < blocknum ==> Contents()[i].name != name
      ensures rc == 0 ==> 0 <= k < blocknum && SortedAt(old(Contents()), Contents(), k, name)
      ensures arrays == old(arrays)
    {
      var p := FindFromEnd(name);
      if p.None? {
        return -1, -1;
      }
      k :| 0 <= k < |descs| && p.value == At(k) && descs[k].name == name;
      SortFound(p.value, k);
      rc := 0;
    }

    method SortFound(at: int, ghost k: int)
      requires Valid() && 0 <= k < |descs| && at == At(k)
      modifies this`table, this`descs, arrays
      ensures Valid() && SortedAt(old(Contents()), Contents(), k, old(descs[k].name))
    {
      SortBlock(at, k);
    }

    method SortBlock(at: int, ghost k: int)
      requires Valid() && 0 <= k < |descs| && at == At(k)
      modifies this`table, this`descs, arrays
      ensures Valid() && descs == old(descs)[k := old(descs[k]).(sortflag := true)]
      ensures Ascending(arrays[k][..]) && multiset(arrays[k][..]) == multiset(old(arrays[k][..]))
      ensures forall i :: 0 <= i < |arrays| && i != k ==> arrays[i][..] == old(arrays[i][..])
    {
      var d := table[at];
      SortData(data[d.pstart], k);
      SetDescriptor(k, d.(sortflag := true));
    }

    method SortData(a: array<Record>, ghost k: int)
      requires Valid() && 0 <= k < |descs| && a == arrays[k]
      modifies a
      ensures Valid() && Ascending(a[..]) && multiset(a[..]) == multiset(old(a[..]))
    {
      ghost var d := descs[k];
      DataDisjoint(descs, pinHead);
      FitsInSegment(d, a[..]);
      Sorting.QuickSort(a, d.condlen);
      SameShapes(old(a[..]), a[..], d);
    }

    /** shm_setblockinfo, which looks the name up again. */
    method SetDescriptor(ghost k: int, d: Descriptor)
      requires Layout() && 0 <= k < |descs| && d == descs[k].(sortflag := true)
      modifies this`table, this`descs
      ensures Layout() && descs == old(descs)[k := d]
    {
      var p := FindFromEnd(d.name);
      FindsOne(d.name, p, Some(At(k)));
      OneSorted(descs, pinHead, k);
      table := table[p.value := d];
      descs := descs[k := d];
    }
  }

  method SelectIn(a: array<Record>, d: Descriptor, key: seq<Byte>, front: seq<Record>, back: seq<Record>)
      returns (data: seq<Record>)
    requires Holds(d, a[..]) && d.condlen == |key| && Beside(front, back, key)
    ensures Selects(Block(d.name, d.sortflag, a[..]), key, front, back, data)
  {
    var w := Around(front, a[..], back);
    FitsInSegment(d, a[..]);
    AroundIsValid(front, a[..], back, key);
    if d.sortflag {
      data := SortedSelect(w, key);
    } else {
      data := LinearSelect(w, key);
    }
  }

  /** The memory around a block, in windows of its record size. */
  function Around(front: seq<Record>, records: seq<Record>, back: seq<Record>): Window {
    Window(front + records + back, |front|, |records|)
  }

  /** The memory ends on both sides with a window that does not carry the key. */
  ghost predicate Beside(front: seq<Record>, back: seq<Record>, key: seq<Byte>) {
    && front != [] && front[0].key != key && Uniform(front, |key|)
    && back != [] && back[|back| - 1].key != key && Uniform(back, |key|)
  }

  lemma AroundIsValid(front: seq<Record>, records: seq<Record>, back: seq<Record>, key: seq<Byte>)
    requires Beside(front, back, key) && Uniform(records, |key|)
    ensures var w := Around(front, records, back);
      && w.Valid(|key|) && w.Block() == records
      && w.mem[0].key != key && w.mem[|w.mem| - 1].key != key
  {
  }

  /**
   What a selection from a block returns: all matches; for a sorted block copies of one, as many exactly when its
   edges are clean and never fewer, so all matches exactly when these are alike besides.
   */
  ghost predicate Selects(b: Block, key: seq<Byte>, front: seq<Record>, back: seq<Record>, data: seq<Record>)
    requires front != [] && back != []
  {
    var m := Matching(b.records, key);
    && (data == [] <==> m == [])
    && (forall r :: r in data ==> r in m)
    && (!b.sorted ==> data == m)
    && (b.sorted ==> (|data| == |m| <==> EdgesClean(Around(front, b.records, back), key)) && |data| >= |m|)
    && (b.sorted ==> (data == m <==> EdgesClean(Around(front, b.records, back), key) && AllAlike(m)))
    && (b.sorted ==> forall i :: 0 <= i < |data| ==> data[i] == data[0])
  }

  lemma {:induction false} MatchingCounts(s: seq<Record>, key: seq<Byte>, r: Record)
    ensures multiset(Matching(s, key))[r] == if r.key == key then multiset(s)[r] else 0
  {
    if s != [] {
      MatchingCounts(s[..|s| - 1], key, r);
      assert s == s[..|s| - 1] + [s[|s| - 1]];
    }
  }

  /** Sorting a block changes neither which records match nor how many. */
  lemma SortKeepsMatches(before: seq<Block>, after: seq<Block>, k: int, name: string, key: seq<Byte>)
    requires SortedAt(before, after, k, name)
    ensures var m, n := Matching(before[k].records, key), Matching(after[k].records, key);
      multiset(m) == multiset(n) && |m| == |n|
  {
    var m, n := Matching(before[k].records, key), Matching(after[k].records, key);
    forall r: Record ensures multiset(m)[r] == multiset(n)[r] {
      MatchingCounts(before[k].records, key, r);
      MatchingCounts(after[k].records, key, r);
    }
    assert |multiset(m)| == |m| && |multiset(n)| == |n|;
  }

  /** So selecting before and after a sort returns equally many records exactly when the edges are clean. */
  lemma CountSurvivesSort(before: seq<Block>, after: seq<Block>, k: int, name: string, key: seq<Byte>,
                          front: seq<Record>, back: seq<Record>, x: seq<Record>, y: seq<Record>)
    requires SortedAt(before, after, k, name) && !before[k].sorted && front != [] && back != []
    requires Selects(before[k], key, front, back, x) && Selects(after[k], key, front, back, y)
    ensures |x| == |y| <==> EdgesClean(Around(front, after[k].records, back), key)
  {
    SortKeepsMatches(before, after, k, name, key);
  }

  /** One block sorted, all others as they were. */
  ghost predicate SortedAt(before: seq<Block>, after: seq<Block>, k: int, name: string) {
    && |after| == |before| && 0 <= k < |after|
    && before[k].name == name == after[k].name && after[k].sorted
    && Ascending(after[k].records) && multiset(after[k].records) == multiset(before[k].records)
    && forall i :: 0 <= i < |after| && i != k ==> after[i] == before[i]
  }

  lemma FitsInSegment(d: Descriptor, records: seq<Record>)
    requires Holds(d, records)
    ensures |records| <= d.pend - d.pstart
    ensures Uniform(records, d.condlen)
  {
    if |records| > 0 {
      Multiple(|records|, d.recsize);
    }
  }

  lemma SameShapes(before: seq<Record>, after: seq<Record>, d: Descriptor)
    requires Holds(d, before) && multiset(after) == multiset(before) && Ascending(after)
    ensures Holds(d, after)
  {
    assert |after| == |multiset(after)| == |before|;
    forall i | 0 <= i < |after| ensures Shaped(after[i], d.condoffset, d.condlen, d.recsize) {
      assert after[i] in multiset(after);
      assert after[i] in before;
    }
  }

  // Runs of uploads and sorts.

  /** An upload by its arguments, or a sort of a block. */
  datatype Op =
    | Upload(records: seq<Record>, len: nat, sublen: nat, condoffset: nat, condlen: nat, name: string)
    | Sort(name: string)

  ghost predicate WellFormed(op: Op) {
    op.Upload? ==>
      && (op.sublen > 0 ==> op.len == |op.records| * op.sublen)
      && forall i :: 0 <= i < |op.records| ==> Shaped(op.records[i], op.condoffset, op.condlen, op.sublen)
  }

  /** What a run leaves: the uploads that went through, in order, each permuted at most. */
  ghost predicate Kept(before: seq<Block>, after: seq<Block>) {
    && |before| <= |after|
    && forall k :: 0 <= k < |before| ==>
         && after[k].name == before[k].name
         && multiset(after[k].records) == multiset(before[k].records)
         && (before[k].sorted ==> after[k].sorted)
  }

  lemma AppendedKeeps(before: seq<Block>, b: Block)
    ensures Kept(before, before + [b])
  {
  }

  lemma SortedKeeps(before: seq<Block>, after: seq<Block>, k: int, name: string)
    requires SortedAt(before, after, k, name)
    ensures Kept(before, after)
  {
  }

  lemma KeptOn(a: seq<Block>, b: seq<Block>, c: seq<Block>)
    requires Kept(a, b) && Kept(b, c)
    ensures Kept(a, c)
  {
  }

  method PerformOne(s: Segment, op: Op)
    requires s.Valid() && WellFormed(op)
    modifies s, s.arrays
    ensures s.Valid() && Kept(old(s.Contents()), s.Contents())
    ensures forall i :: 0 <= i < |s.arrays| ==> s.arrays[i] in old(s.arrays) || fresh(s.arrays[i])
  {
    ghost var before := s.Contents();
    match op {
      case Upload(records, len, sublen, condoffset, condlen, name) =>
        var rc := s.Upload(records, len, sublen, condoffset, condlen, name);
        AppendedKeeps(before, Block(name, false, records));
      case Sort(name) =>
        var rc, k := s.Sort(name);
        if rc == 0 {
          SortedKeeps(before, s.Contents(), k, name);
        }
    }
  }

  /** Any run keeps the segment valid; no block is lost, renamed, or changed but by sorting. */
  method Perform(s: Segment, ops: seq<Op>)
    requires s.Valid() && forall i :: 0 <= i < |ops| ==> WellFormed(ops[i])
    modifies s, s.arrays
    ensures s.Valid() && Kept(old(s.Contents()), s.Contents())
    decreases |ops|
  {
    if ops != [] {
      ghost var first := s.Contents();
      PerformOne(s, ops[0]);
      ghost var next := s.Contents();
      Perform(s, ops[1..]);
      KeptOn(first, next, s.Contents());
    }
  }
}
