/** Selection of the records of a block by their index: binary search, neighbour walk, linear scan. */
module ShmSelect {
  import opened Options
  import opened Bytes
  import opened ShmRecords

  /** The record-sized windows of the mapped memory around a block; the block is [start .. start + num]. */
  datatype Window = Window(mem: seq<Record>, start: nat, num: nat)
  {
    ghost predicate Valid(condLen: nat)
    {
      0 < start && start + num < |mem| && Uniform(mem, condLen)
    }

    function Block(): seq<Record>
      requires start + num <= |mem|
    {
      mem[start..start + num]
    }
  }

  /** The records of s that carry the key, in their order. */
  function Matching(s: seq<Record>, key: seq<Byte>): seq<Record>
  {
    if s == [] then []
    else
      var last := s[|s| - 1];
      Matching(s[..|s| - 1], key) + (if last.key == key then [last] else [])
  }

  /** The places of exactly those of the first n records that carry the key, in order. */
  ghost predicate AreMatches(s: seq<Record>, n: nat, key: seq<Byte>, at: seq<int>)
    requires n <= |s|
  {
    && (forall i, j :: 0 <= i < j < |at| ==> at[i] < at[j])
    && (forall i :: 0 <= i < |at| ==> 0 <= at[i] < n && s[at[i]].key == key)
    && (forall k :: 0 <= k < n && s[k].key == key ==> k in at)
  }

  ghost predicate IsPick(s: seq<Record>, at: seq<int>, list: seq<Record>)
  {
    |list| == |at| && forall i :: 0 <= i < |at| ==> 0 <= at[i] < |s| && list[i] == s[at[i]]
  }

  ghost function Places(s: seq<Record>, n: nat, key: seq<Byte>): seq<int>
    requires n <= |s|
  {
    if n == 0 then [] else Places(s, n - 1, key) + if s[n - 1].key == key then [n - 1] else []
  }

  lemma {:induction false} PlacesAreMatches(s: seq<Record>, n: nat, key: seq<Byte>)
    requires n <= |s|
    ensures AreMatches(s, n, key, Places(s, n, key))
  {
    if n > 0 {
      PlacesAreMatches(s, n - 1, key);
      var at := Places(s, n - 1, key);
      assert forall k :: k in at + [n - 1] <==> k in at || k == n - 1;
    }
  }

  lemma {:induction false} MatchingPicks(s: seq<Record>, n: nat, key: seq<Byte>)
    requires n <= |s|
    ensures IsPick(s, Places(s, n, key), Matching(s[..n], key))
  {
    if n > 0 {
      assert s[..n][..n - 1] == s[..n - 1];
      MatchingPicks(s, n - 1, key);
    }
  }

  /** The records selected are exactly those that carry the key, each once, in the order of the block. */
  lemma MatchingMeans(s: seq<Record>, key: seq<Byte>)
    ensures exists at :: AreMatches(s, |s|, key, at) && IsPick(s, at, Matching(s, key))
  {
    PlacesAreMatches(s, |s|, key);
    MatchingPicks(s, |s|, key);
    assert s[..|s|] == s;
  }

  /** Neither end of the block is a match continued by the window just outside. */
  ghost predicate EdgesClean(w: Window, key: seq<Byte>)
    requires 0 < w.start && w.start + w.num < |w.mem|
  {
    w.num > 0 ==>
      && !(w.mem[w.start].key == key && w.mem[w.start - 1].key == key)
      && !(w.mem[w.start + w.num - 1].key == key && w.mem[w.start + w.num].key == key)
  }

  /** The unsorted path: every record compared. */
  method LinearSelect(w: Window, key: seq<Byte>) returns (data: seq<Record>)
    requires w.Valid(|key|)
    ensures data == Matching(w.Block(), key)
  {
    data := [];
    var i := 0;
    while i < w.num
      invariant 0 <= i <= w.num
      invariant data == Matching(w.Block()[..i], key)
    {
      var r := w.mem[w.start + i];
      assert w.Block()[..i + 1][..i] == w.Block()[..i];
      if Compare(r, Record([], key, [])) == 0 {
        data := data + [r];
      }
      i := i + 1;
    }
    assert w.Block()[..w.num] == w.Block();
  }

  /** Binary search over the block: an index of the mapped memory, or None when no record carries the key. */
  method BinarySearch(w: Window, key: seq<Byte>) returns (hit: Option<nat>)
    requires w.Valid(|key|) && Ascending(w.Block())
    ensures hit.Some? ==> w.start <= hit.value < w.start + w.num && w.mem[hit.value].key == key
    ensures hit.None? <==> Matching(w.Block(), key) == []
  {
    ghost var b := w.Block();
    var cond := Record([], key, []);
    var lo, hi := 0, w.num;
    while lo < hi
      invariant 0 <= lo <= hi <= w.num
      invariant forall i :: 0 <= i < lo ==> K(b[i]) < K(cond)
      invariant forall i :: hi <= i < w.num ==> K(cond) < K(b[i])
    {
      var mid := lo + (hi - lo) / 2;
      var result := Compare(cond, w.mem[w.start + mid]);
      assert b[mid] == w.mem[w.start + mid];
      if result < 0 {
        Above(b, cond, mid);
        hi := mid;
      } else if result > 0 {
        Below(b, cond, mid);
        lo := mid + 1;
      } else {
        MatchingHolds(b, key, mid);
        return Some(w.start + mid);
      }
    }
    NoneEqual(b, cond);
    hit := None;
  }

  lemma Above(b: seq<Record>, cond: Record, mid: nat)
    requires Ascending(b) && mid < |b| && K(cond) < K(b[mid])
    ensures forall i :: mid <= i < |b| ==> K(cond) < K(b[i])
  {
    assert forall i :: mid < i < |b| ==> K(b[mid]) <= K(b[i]);
  }

  lemma Below(b: seq<Record>, cond: Record, mid: nat)
    requires Ascending(b) && mid < |b| && K(b[mid]) < K(cond)
    ensures forall i :: 0 <= i <= mid ==> K(b[i]) < K(cond)
  {
    assert forall i :: 0 <= i < mid ==> K(b[i]) <= K(b[mid]);
  }

  lemma NoneEqual(b: seq<Record>, cond: Record)
    requires forall i :: 0 <= i < |b| ==> K(b[i]) != K(cond)
    ensures Matching(b, cond.key) == []
  {
    assert forall i :: 0 <= i < |b| ==> b[i].key != cond.key;
    MatchingOfRun(b, cond.key, 0, 0);
  }

  lemma {:induction false} MatchingHolds(s: seq<Record>, key: seq<Byte>, i: nat)
    requires i < |s| && s[i].key == key
    ensures s[i] in Matching(s, key) && Matching(s, key) != []
  {
    if i < |s| - 1 {
      MatchingHolds(s[..|s| - 1], key, i);
    }
  }

  /** When the matches are exactly positions l..r-1, the scan returns that slice. */
  lemma {:induction false} MatchingOfRun(s: seq<Record>, key: seq<Byte>, l: nat, r: nat)
    requires l <= r <= |s|
    requires forall i :: 0 <= i < |s| ==> (s[i].key == key <==> l <= i < r)
    ensures Matching(s, key) == s[l..r]
  {
    if s != [] {
      var n := |s| - 1;
      if r == |s| && l < r {
        MatchingOfRun(s[..n], key, l, n);
        assert s[l..r] == s[..n][l..n] + [s[n]];
      } else if r == |s| {
        MatchingOfRun(s[..n], key, 0, 0);
      } else {
        MatchingOfRun(s[..n], key, l, r);
        assert s[l..r] == s[..n][l..r];
      }
    }
  }

  /** In a sorted block no match lies beyond a non-match. */
  lemma NoMatchBeyond(b: seq<Record>, key: seq<Byte>, edge: nat, hit: nat, i: nat)
    requires Uniform(b, |key|) && Ascending(b)
    requires edge < |b| && hit < |b| && i < |b|
    requires b[hit].key == key && b[edge].key != key
    requires i <= edge < hit || hit < edge <= i
    ensures b[i].key != key
  {
    MemcmpIsNumericOrder(b[edge].key, key);
    if i < edge {
      assert K(b[i]) <= K(b[edge]) <= K(b[hit]);
    } else if edge < i {
      assert K(b[hit]) <= K(b[edge]) <= K(b[i]);
    }
  }

  /** mem[l..r] is the whole run of matches around a hit in the block. */
  ghost predicate Run(w: Window, key: seq<Byte>, hit: nat, l: nat, r: nat)
  {
    && w.Valid(|key|)
    && w.start <= hit < w.start + w.num
    && 0 < l <= hit < r < |w.mem|
    && (forall i :: l <= i < r ==> w.mem[i].key == key)
    && w.mem[l - 1].key != key && w.mem[r].key != key
  }

  lemma MatchIffInRun(w: Window, key: seq<Byte>, hit: nat, l: nat, r: nat, i: nat)
    requires Run(w, key, hit, l, r) && Ascending(w.Block())
    requires w.start <= i < w.start + w.num
    ensures w.mem[i].key == key <==> l <= i < r
  {
    var b, s := w.Block(), w.start;
    if i < l {
      NoMatchBeyond(b, key, l - 1 - s, hit - s, i - s);
    } else if r <= i {
      NoMatchBeyond(b, key, r - s, hit - s, i - s);
    }
  }

  /** A sorted block's matches are the part of the run around any hit that lies in the block. */
  lemma RunIsBlockMatches(w: Window, key: seq<Byte>, hit: nat, l: nat, r: nat, from: nat, to: nat)
    requires Run(w, key, hit, l, r) && Ascending(w.Block())
    requires from == if l < w.start then 0 else l - w.start
    requires to == if r > w.start + w.num then w.num else r - w.start
    ensures Matching(w.Block(), key) == w.Block()[from..to]
  {
    forall i | 0 <= i < w.num
      ensures w.Block()[i].key == key <==> from <= i < to
    {
      MatchIffInRun(w, key, hit, l, r, w.start + i);
    }
    MatchingOfRun(w.Block(), key, from, to);
  }

  lemma EdgesCleanMeansInside(w: Window, key: seq<Byte>, hit: nat, l: nat, r: nat)
    requires Run(w, key, hit, l, r) && Ascending(w.Block())
    ensures EdgesClean(w, key) <==> w.start <= l && r <= w.start + w.num
  {
    MatchIffInRun(w, key, hit, l, r, w.start);
    MatchIffInRun(w, key, hit, l, r, w.start + w.num - 1);
  }

  /** The walk away from the hit on both sides, copying the hit for every equal neighbour. */
  method CollectNeighbours(w: Window, key: seq<Byte>, hit: nat) returns (data: seq<Record>, prev: nat, next: nat)
    requires w.Valid(|key|)
    requires w.start <= hit < w.start + w.num && w.mem[hit].key == key
    // the walk ends inside the mapped memory
    requires w.mem[0].key != key && w.mem[|w.mem| - 1].key != key
    ensures Run(w, key, hit, prev + 1, next)
    ensures |data| == next - prev - 1
    ensures forall i :: 0 <= i < |data| ==> data[i] == w.mem[hit]
  {
    var curr, cond := w.mem[hit], Record([], key, []);
    data := [curr];
    prev := hit - 1;
    while Compare(w.mem[prev], cond) == 0
      invariant 0 <= prev < hit
      invariant forall i :: prev < i <= hit ==> w.mem[i].key == key
      invariant |data| == hit - prev && forall i :: 0 <= i < |data| ==> data[i] == curr
      decreases prev
    {
      data := data + [curr];
      prev := prev - 1;
    }
    next := hit + 1;
    while Compare(w.mem[next], cond) == 0
      invariant hit < next < |w.mem|
      invariant forall i :: hit <= i < next ==> w.mem[i].key == key
      invariant |data| == next - prev - 1 && forall i :: 0 <= i < |data| ==> data[i] == curr
      decreases |w.mem| - next
    {
      data := data + [curr];
      next := next + 1;
    }
  }

  ghost predicate AllAlike(m: seq<Record>)
  {
    forall i, j :: 0 <= i < |m| && 0 <= j < |m| ==> m[i] == m[j]
  }

  /**
   * The sorted path agrees in count with the linear scan exactly when no match touches the block's outside, and
   * returns the very records of the linear scan exactly when all of these are alike besides.
   */
  method SortedSelect(w: Window, key: seq<Byte>) returns (data: seq<Record>)
    requires w.Valid(|key|) && Ascending(w.Block())
    requires w.mem[0].key != key && w.mem[|w.mem| - 1].key != key
    ensures data == [] <==> Matching(w.Block(), key) == []
    ensures forall i :: 0 <= i < |data| ==> data[i] == data[0] && data[i] in Matching(w.Block(), key)
    ensures |data| >= |Matching(w.Block(), key)|
    ensures |data| == |Matching(w.Block(), key)| <==> EdgesClean(w, key)
    ensures data == Matching(w.Block(), key) <==> EdgesClean(w, key) && AllAlike(Matching(w.Block(), key))
  {
    var hit := BinarySearch(w, key);
    if hit == None {
      NoMatchNoEdges(w, key);
      return [];
    }
    var prev, next;
    data, prev, next := CollectNeighbours(w, key, hit.value);
    RunCounts(w, key, hit.value, prev + 1, next);
    CopiesEqual(data, w.mem[hit.value], Matching(w.Block(), key));
  }

  /** How the run around a hit compares with the matches of the block. */
  lemma RunCounts(w: Window, key: seq<Byte>, hit: nat, l: nat, r: nat)
    requires Run(w, key, hit, l, r) && Ascending(w.Block())
    ensures w.mem[hit] in Matching(w.Block(), key)
    ensures r - l >= |Matching(w.Block(), key)|
    ensures r - l == |Matching(w.Block(), key)| <==> EdgesClean(w, key)
  {
    var b, s := w.Block(), w.start;
    assert b[hit - s] == w.mem[hit];
    MatchingHolds(b, key, hit - s);
    RunIsBlockMatches(w, key, hit, l, r, if l < s then 0 else l - s, if r > s + w.num then w.num else r - s);
    EdgesCleanMeansInside(w, key, hit, l, r);
  }

  lemma CopiesEqual(data: seq<Record>, hit: Record, m: seq<Record>)
    requires (forall i :: 0 <= i < |data| ==> data[i] == hit) && hit in m
    ensures data == m <==> |data| == |m| && AllAlike(m)
  {
    var k :| 0 <= k < |m| && m[k] == hit;
  }

  function Tagged(key: Byte, payload: Byte): Record
  {
    Record([], [key], [payload])
  }

  /** Two records with one key and different payloads: the sorted path returns the same one twice. */
  lemma PayloadsMayDiffer()
    ensures var w := Window([Tagged(0, 0), Tagged(1, 0), Tagged(1, 1), Tagged(2, 0)], 1, 2);
      && w.Valid(1) && Ascending(w.Block()) && EdgesClean(w, [1])
      && Matching(w.Block(), [1]) == w.Block() && !AllAlike(w.Block())
  {
    var w := Window([Tagged(0, 0), Tagged(1, 0), Tagged(1, 1), Tagged(2, 0)], 1, 2);
    assert w.Block() == [Tagged(1, 0), Tagged(1, 1)];
    MatchingOfRun(w.Block(), [1], 0, 2);
    assert w.Block()[0] != w.Block()[1];
  }

  /** A window behind the block that carries the key of its last record: the sorted path counts it too. */
  lemma CountsMayDiffer()
    ensures var w := Window([Tagged(0, 0), Tagged(1, 0), Tagged(1, 0), Tagged(0, 0)], 1, 1);
      && w.Valid(1) && Ascending(w.Block()) && w.mem[0].key != [1] && w.mem[3].key != [1]
      && |Matching(w.Block(), [1])| == 1 && !EdgesClean(w, [1])
  {
    var w := Window([Tagged(0, 0), Tagged(1, 0), Tagged(1, 0), Tagged(0, 0)], 1, 1);
    assert w.Block() == [Tagged(1, 0)];
    MatchingOfRun(w.Block(), [1], 0, 1);
  }

  lemma NoMatchNoEdges(w: Window, key: seq<Byte>)
    requires w.Valid(|key|) && Matching(w.Block(), key) == []
    ensures EdgesClean(w, key)
  {
    NoneCarries(w.Block(), key);
    NoKeyNoEdges(w, key);
  }

  lemma NoKeyNoEdges(w: Window, key: seq<Byte>)
    requires w.Valid(|key|) && forall i :: 0 <= i < w.num ==> w.Block()[i].key != key
    ensures EdgesClean(w, key)
  {
    assert w.num > 0 ==> w.Block()[0] == w.mem[w.start] && w.Block()[w.num - 1] == w.mem[w.start + w.num - 1];
  }

  lemma {:induction false} NoneCarries(s: seq<Record>, key: seq<Byte>)
    requires Matching(s, key) == []
    ensures forall i :: 0 <= i < |s| ==> s[i].key != key
  {
    if s != [] {
      var front := s[..|s| - 1];
      NoneCarries(front, key);
      assert forall i :: 0 <= i < |front| ==> s[i] == front[i];
    }
  }
}
