/** In-place sorting of a block: the whole-block selection sort and the explicit-stack quicksort. */
module ShmSort {
  import opened ShmRecords

  const STKSIZ := 62  // 8 * sizeof(void*) - 2 with eight-byte pointers
  const CUTOFF := 8
  const INT_MAX := 0x7FFF_FFFF

  /** t is s with the records of positions lo..hi rearranged among themselves. */
  ghost predicate RearrangedWithin(s: seq<Record>, t: seq<Record>, lo: int, hi: int)
  {
    && |t| == |s|
    && multiset(t) == multiset(s)
    && forall i :: 0 <= i < |s| && !(lo <= i <= hi) ==> t[i] == s[i]
  }

  method Swap(a: array<Record>, i: int, j: int, ghost condLen: nat)
    requires 0 <= i < a.Length && 0 <= j < a.Length && Uniform(a[..], condLen)
    modifies a
    ensures a[i] == old(a[j]) && a[j] == old(a[i])
    ensures forall k :: 0 <= k < a.Length && k != i && k != j ==> a[k] == old(a[k])
    ensures multiset(a[..]) == multiset(old(a[..]))
    ensures Uniform(a[..], condLen)
  {
    if i != j {
      a[i], a[j] := a[j], a[i];
    }
  }

  /** Selection sort of the whole block, whatever range the caller was working on. */
  method SelectionSort(a: array<Record>, ghost condLen: nat)
    requires Uniform(a[..], condLen)
    modifies a
    ensures Ascending(a[..])
    ensures multiset(a[..]) == multiset(old(a[..]))
    ensures Uniform(a[..], condLen)
  {
    var lo, hi := 0, a.Length - 1;
    while hi > lo
      invariant -1 <= hi < a.Length
      invariant a.Length > 0 ==> hi >= 0
      invariant Uniform(a[..], condLen)
      invariant multiset(a[..]) == multiset(old(a[..]))
      invariant forall i, j :: 0 <= i < j < a.Length && hi < j ==> K(a[i]) <= K(a[j])
    {
      var max := lo;
      var p := lo + 1;
      while p <= hi
        invariant 1 <= p <= hi + 1
        invariant 0 <= max <= hi
        invariant forall i :: 0 <= i < p ==> K(a[i]) <= K(a[max])
      {
        if Compare(a[p], a[max]) > 0 {
          max := p;
        }
        p := p + 1;
      }
      Swap(a, max, hi, condLen);
      hi := hi - 1;
    }
  }

  lemma SameMiddle(a: multiset<Record>, x: multiset<Record>, y: multiset<Record>, b: multiset<Record>)
    requires a + x + b == a + y + b
    ensures x == y
  {
    forall r: Record
      ensures x[r] == y[r]
    {
      assert (a + x + b)[r] == (a + y + b)[r];
    }
  }

  /** A record of the range comes from the range. */
  lemma Origin(s: seq<Record>, t: seq<Record>, lo: int, hi: int, i: int) returns (k: int)
    requires 0 <= lo <= i <= hi < |s| && RearrangedWithin(s, t, lo, hi)
    ensures lo <= k <= hi && s[k] == t[i]
  {
    var inS, inT := s[lo..hi + 1], t[lo..hi + 1];
    var first, last := s[..lo], s[hi + 1..];
    assert s == first + inS + last && t == first + inT + last;
    assert multiset(inS) == multiset(inT) by {
      SameMiddle(multiset(first), multiset(inS), multiset(inT), multiset(last));
    }
    assert t[i] == inT[i - lo] && t[i] in multiset(inT);
    assert t[i] in inS;
    var m :| 0 <= m < |inS| && inS[m] == t[i];
    k := lo + m;
  }

  /** Puts the first, middle and last record of the range in order. */
  method MedianOfThree(a: array<Record>, lo: int, mid: int, hi: int, ghost condLen: nat)
    requires 0 <= lo < mid < hi < a.Length && Uniform(a[..], condLen)
    modifies a
    ensures K(a[lo]) <= K(a[mid]) <= K(a[hi])
    ensures forall k :: 0 <= k < a.Length && k != lo && k != mid && k != hi ==> a[k] == old(a[k])
    ensures RearrangedWithin(old(a[..]), a[..], lo, hi)
    ensures Uniform(a[..], condLen)
  {
    if Compare(a[lo], a[mid]) > 0 {
      Swap(a, lo, mid, condLen);
    }
    if Compare(a[lo], a[hi]) > 0 {
      Swap(a, lo, hi, condLen);
    }
    if Compare(a[mid], a[hi]) > 0 {
      Swap(a, mid, hi, condLen);
    }
  }

  /** [lo..higuy] and [loguy..hi] may be sorted on their own: any other pair of the range is in order. */
  ghost predicate Split(s: seq<Record>, lo: int, hi: int, higuy: int, loguy: int)
  {
    && 0 <= lo && hi < |s|
    && lo <= higuy < hi && lo < loguy <= hi + 1 && higuy < loguy
    && forall i, j :: lo <= i < j <= hi && higuy < j && i < loguy ==> K(s[i]) <= K(s[j])
  }

  /** The upward scan: stops past hi or at the first record above the pivot. */
  method ScanUp(a: array<Record>, lo: int, mid: int, hi: int, loguy0: int, ghost condLen: nat) returns (loguy: int)
    requires 0 <= lo <= loguy0 < hi < a.Length && lo < mid < hi && Uniform(a[..], condLen)
    requires forall i :: lo <= i <= loguy0 ==> K(a[i]) <= K(a[mid])
    ensures loguy0 < loguy <= hi + 1 && loguy != mid
    ensures forall i :: lo <= i < loguy ==> K(a[i]) <= K(a[mid])
    ensures loguy <= hi ==> K(a[loguy]) > K(a[mid])
  {
    loguy := loguy0;
    if mid > loguy {
      loguy := loguy + 1;
      while loguy < mid && Compare(a[loguy], a[mid]) <= 0
        invariant loguy0 < loguy <= mid
        invariant forall i :: lo <= i < loguy ==> K(a[i]) <= K(a[mid])
      {
        loguy := loguy + 1;
      }
    }
    if mid <= loguy {
      loguy := loguy + 1;
      while loguy <= hi && Compare(a[loguy], a[mid]) <= 0
        invariant mid < loguy <= hi + 1 && loguy0 < loguy
        invariant forall i :: lo <= i < loguy ==> K(a[i]) <= K(a[mid])
      {
        loguy := loguy + 1;
      }
    }
  }

  /** The downward scan: stops at the pivot or at the first record not above it. */
  method ScanDown(a: array<Record>, mid: int, hi: int, higuy0: int, ghost condLen: nat) returns (higuy: int)
    requires 0 <= mid < higuy0 <= hi < a.Length && Uniform(a[..], condLen)
    requires forall i :: higuy0 <= i < hi ==> K(a[i]) > K(a[mid])
    ensures mid <= higuy < higuy0
    ensures K(a[higuy]) <= K(a[mid])
    ensures forall i :: higuy < i < hi ==> K(a[i]) > K(a[mid])
  {
    higuy := higuy0 - 1;
    while higuy > mid && Compare(a[higuy], a[mid]) > 0
      invariant mid <= higuy < higuy0
      invariant forall i :: higuy < i < hi ==> K(a[i]) > K(a[mid])
    {
      higuy := higuy - 1;
    }
  }

  /** The two scans towards each other, with the pivot position following its record. */
  method Scan(a: array<Record>, lo: int, mid0: int, hi: int, ghost condLen: nat)
    returns (loguy: int, higuy: int, mid: int)
    requires 0 <= lo < mid0 < hi < a.Length && Uniform(a[..], condLen)
    requires K(a[lo]) <= K(a[mid0]) <= K(a[hi])
    modifies a
    ensures RearrangedWithin(old(a[..]), a[..], lo, hi)
    ensures Uniform(a[..], condLen)
    ensures lo < mid <= higuy < loguy <= hi + 1 && higuy < hi
    ensures forall i :: lo <= i < loguy && i <= hi ==> K(a[i]) <= K(a[mid])
    ensures forall i :: higuy < i < hi ==> K(a[i]) > K(a[mid])
    ensures K(a[hi]) >= K(a[mid])
  {
    mid := mid0;
    loguy, higuy := lo, hi;
    while true
      invariant lo <= loguy < hi && lo < higuy <= hi && lo < mid < higuy
      invariant RearrangedWithin(old(a[..]), a[..], lo, hi)
      invariant Uniform(a[..], condLen)
      invariant forall i :: lo <= i <= loguy ==> K(a[i]) <= K(a[mid])
      invariant forall i :: higuy <= i < hi ==> K(a[i]) > K(a[mid])
      invariant K(a[hi]) >= K(a[mid])
      decreases higuy
    {
      loguy := ScanUp(a, lo, mid, hi, loguy, condLen);
      higuy := ScanDown(a, mid, hi, higuy, condLen);
      if higuy < loguy {
        break;
      }
      Swap(a, loguy, higuy, condLen);
      if mid == higuy {
        mid := loguy;
      }
    }
  }

  /** Drops the records equal to the pivot from the lower part. */
  method SkipEqual(a: array<Record>, lo: int, mid: int, hi: int, loguy: int, higuy0: int, ghost condLen: nat)
    returns (higuy: int)
    requires 0 <= lo < mid <= higuy0 < loguy <= hi + 1 <= a.Length && higuy0 < hi
    requires Uniform(a[..], condLen)
    requires forall i :: lo <= i < loguy && i <= hi ==> K(a[i]) <= K(a[mid])
    requires forall i :: higuy0 < i < hi ==> K(a[i]) > K(a[mid])
    requires K(a[hi]) >= K(a[mid])
    ensures Split(a[..], lo, hi, higuy, loguy)
  {
    higuy := higuy0 + 1;
    if mid < higuy {
      higuy := higuy - 1;
      while higuy > mid && Compare(a[higuy], a[mid]) == 0
        invariant mid <= higuy <= higuy0
        invariant forall i :: higuy < i <= higuy0 ==> K(a[i]) == K(a[mid])
      {
        higuy := higuy - 1;
      }
    }
    if mid >= higuy {
      higuy := higuy - 1;
      while higuy > lo && Compare(a[higuy], a[mid]) == 0
        invariant lo <= higuy < mid
        invariant forall i :: higuy < i <= higuy0 ==> K(a[i]) == K(a[mid])
      {
        higuy := higuy - 1;
      }
    }
  }

  /** A range of positions still to be sorted. */
  datatype Range = Range(lo: int, hi: int)

  /** Pending ranges hold at least two positions, lie in the block and do not overlap. */
  ghost predicate Disjoint(rs: seq<Range>, n: nat)
  {
    && (forall t :: 0 <= t < |rs| ==> 0 <= rs[t].lo < rs[t].hi < n)
    && forall t, u :: 0 <= t < u < |rs| ==> rs[t].hi < rs[u].lo || rs[u].hi < rs[t].lo
  }

  /** Positions i and j lie in one pending range. */
  ghost predicate Together(rs: seq<Range>, i: int, j: int)
  {
    exists t :: 0 <= t < |rs| && rs[t].lo <= i && j <= rs[t].hi
  }

  /** The quicksort's invariant: two records are in order unless one pending range holds both. */
  ghost predicate SortedUpTo(s: seq<Record>, rs: seq<Range>)
  {
    forall i, j :: 0 <= i < j < |s| ==> K(s[i]) <= K(s[j]) || Together(rs, i, j)
  }

  /** Splitting one pending range keeps the invariant for any ranges that cover what is left. */
  lemma SplitKeepsInvariant(s: seq<Record>, t: seq<Record>, rest: seq<Range>, r: Range, rs: seq<Range>,
                            higuy: int, loguy: int)
    requires Disjoint(rest + [r], |s|) && SortedUpTo(s, rest + [r])
    requires RearrangedWithin(s, t, r.lo, r.hi) && Split(t, r.lo, r.hi, higuy, loguy)
    requires rest <= rs
    requires r.lo < higuy ==> Range(r.lo, higuy) in rs
    requires loguy < r.hi ==> Range(loguy, r.hi) in rs
    ensures SortedUpTo(t, rs)
  {
    forall i, j | 0 <= i < j < |t|
      ensures K(t[i]) <= K(t[j]) || Together(rs, i, j)
    {
      SplitKeepsPair(s, t, rest, r, rs, higuy, loguy, i, j);
    }
  }

  lemma SplitKeepsPair(s: seq<Record>, t: seq<Record>, rest: seq<Range>, r: Range, rs: seq<Range>,
                       higuy: int, loguy: int, i: int, j: int)
    requires Disjoint(rest + [r], |s|) && SortedUpTo(s, rest + [r])
    requires RearrangedWithin(s, t, r.lo, r.hi) && Split(t, r.lo, r.hi, higuy, loguy)
    requires rest <= rs
    requires r.lo < higuy ==> Range(r.lo, higuy) in rs
    requires loguy < r.hi ==> Range(loguy, r.hi) in rs
    requires 0 <= i < j < |t|
    ensures K(t[i]) <= K(t[j]) || Together(rs, i, j)
  {
    var all := rest + [r];
    assert all[|rest|] == r;
    var inI, inJ := r.lo <= i <= r.hi, r.lo <= j <= r.hi;
    if inI && inJ {
      if j <= higuy {
        var u :| 0 <= u < |rs| && rs[u] == Range(r.lo, higuy);
      } else if loguy <= i {
        var u :| 0 <= u < |rs| && rs[u] == Range(loguy, r.hi);
      }
    } else {
      var i0, j0 := i, j;
      if inI { i0 := Origin(s, t, r.lo, r.hi, i); }
      if inJ { j0 := Origin(s, t, r.lo, r.hi, j); }
      assert s[i0] == t[i] && s[j0] == t[j] && i0 < j0;
      if Together(all, i0, j0) {
        var u :| 0 <= u < |all| && all[u].lo <= i0 && j0 <= all[u].hi;
        assert u < |rest| && rs[u] == rest[u] == all[u];
      }
    }
  }

  /** No more than bound positions when doubled times times. */
  ghost predicate Fits(size: nat, times: nat, bound: nat)
    decreases times
  {
    if times == 0 then size <= bound else Fits(2 * size, times - 1, bound)
  }

  ghost function Pow2(k: nat): nat
  {
    if k == 0 then 1 else 2 * Pow2(k - 1)
  }

  lemma {:induction false} FitsIsPower(size: nat, times: nat, bound: nat)
    ensures Fits(size, times, bound) <==> size * Pow2(times) <= bound
    decreases times
  {
    if times > 0 {
      FitsIsPower(2 * size, times - 1, bound);
      assert 2 * size * Pow2(times - 1) == size * (2 * Pow2(times - 1));
    }
  }

  lemma {:induction false} FitsSmaller(size: nat, smaller: nat, times: nat, bound: nat)
    requires Fits(size, times, bound) && smaller <= size
    ensures Fits(smaller, times, bound)
    decreases times
  {
    if times > 0 {
      FitsSmaller(2 * size, 2 * smaller, times - 1, bound);
    }
  }

  lemma FitsHalf(size: nat, half: nat, times: nat, bound: nat)
    requires Fits(size, times, bound) && 2 * half <= size
    ensures Fits(half, times + 1, bound)
  {
    FitsSmaller(size, 2 * half, times, bound);
  }

  /** A range above CUTOFF is met only with fewer than 28 entries on the stack of an int-sized block. */
  lemma {:induction false} ShallowStack(size: nat, times: nat, bound: nat)
    requires Fits(size, times, bound) && size > CUTOFF && bound <= INT_MAX
    ensures times < 28
  {
    FitsIsPower(size, times, bound);
    if times >= 28 {
      Pow2Grows(28, times);
      assert Pow2(28) == 0x1000_0000 by { Pow2At28(); }
      assert size * Pow2(times) >= 9 * Pow2(times) by { MulMonotone(9, size, Pow2(times)); }
    }
  }

  lemma Pow2At28()
    ensures Pow2(28) == 0x1000_0000
  {
    assert Pow2(8) == 256;
    assert Pow2(16) == 65536;
    assert Pow2(24) == 0x100_0000;
  }

  lemma {:induction false} Pow2Grows(a: nat, b: nat)
    requires a <= b
    ensures Pow2(a) <= Pow2(b)
  {
    if a < b {
      Pow2Grows(a, b - 1);
    }
  }

  lemma MulMonotone(a: nat, b: nat, p: nat)
    requires a <= b
    ensures a * p <= b * p
  {
    assert (b - a) * p >= 0;
  }

  ghost function Length(r: Range): nat
  {
    if r.lo < r.hi then r.hi - r.lo else 0
  }

  ghost function Work(rs: seq<Range>): nat
  {
    if rs == [] then 0 else Work(rs[..|rs| - 1]) + Length(rs[|rs| - 1])
  }

  /** What holds of the stack: entry t, doubled t times, still fits the block. */
  ghost predicate StackFits(rs: seq<Range>, n: nat)
  {
    forall t :: 0 <= t < |rs| ==> rs[t].lo <= rs[t].hi && Fits(rs[t].hi - rs[t].lo + 1, t, n)
  }

  lemma WorkPush(rs: seq<Range>, r: Range)
    ensures Work(rs + [r]) == Work(rs) + Length(r)
  {
    assert (rs + [r])[..|rs|] == rs;
  }

  /** What is pending after r was split: the larger part stacked below the smaller, trivial parts dropped. */
  ghost function Pending(rest: seq<Range>, r: Range, higuy: int, loguy: int): seq<Range>
  {
    var left := if r.lo < higuy then [Range(r.lo, higuy)] else [];
    var right := if loguy < r.hi then [Range(loguy, r.hi)] else [];
    if higuy - r.lo >= r.hi - loguy then rest + left + right else rest + right + left
  }

  lemma PendingIsDisjoint(s: seq<Record>, rest: seq<Range>, r: Range, higuy: int, loguy: int)
    requires Disjoint(rest + [r], |s|) && Split(s, r.lo, r.hi, higuy, loguy)
    ensures Disjoint(Pending(rest, r, higuy, loguy), |s|)
  {
    var all := rest + [r];
    assert all[|rest|] == r;
    assert forall t :: 0 <= t < |rest| ==> all[t] == rest[t];
  }

  lemma PendingFits(s: seq<Record>, rest: seq<Range>, r: Range, higuy: int, loguy: int, n: nat)
    requires StackFits(rest + [r], n) && Split(s, r.lo, r.hi, higuy, loguy)
    ensures StackFits(Pending(rest, r, higuy, loguy), n)
  {
    var all := rest + [r];
    assert all[|rest|] == r;
    assert forall t :: 0 <= t < |rest| ==> all[t] == rest[t];
    var size := r.hi - r.lo + 1;
    var left, right := higuy - r.lo + 1, r.hi - loguy + 1;
    FitsSmaller(size, left, |rest|, n);
    FitsSmaller(size, right, |rest|, n);
    if left >= right {
      FitsHalf(size, right, |rest|, n);
    } else {
      FitsHalf(size, left, |rest|, n);
    }
  }

  lemma PendingIsLess(s: seq<Record>, rest: seq<Range>, r: Range, higuy: int, loguy: int)
    requires r.lo < r.hi && Split(s, r.lo, r.hi, higuy, loguy)
    ensures Work(Pending(rest, r, higuy, loguy)) < Work(rest + [r])
  {
    var left, right := Range(r.lo, higuy), Range(loguy, r.hi);
    WorkPush(rest, r);
    WorkPush(rest, left);
    WorkPush(rest, right);
    WorkPush(rest + [left], right);
    WorkPush(rest + [right], left);
    assert rest + [] == rest;
    assert rest + [left] + [] == rest + [left] && rest + [right] + [] == rest + [right];
  }

  lemma PendingSorted(s: seq<Record>, t: seq<Record>, rest: seq<Range>, r: Range, higuy: int, loguy: int)
    requires Disjoint(rest + [r], |s|) && SortedUpTo(s, rest + [r])
    requires RearrangedWithin(s, t, r.lo, r.hi) && Split(t, r.lo, r.hi, higuy, loguy)
    ensures SortedUpTo(t, Pending(rest, r, higuy, loguy))
  {
    SplitKeepsInvariant(s, t, rest, r, Pending(rest, r, higuy, loguy), higuy, loguy);
  }

  /** One partition of [lo..hi]: median of three, the scans, the equal-key skip. */
  method Partition(a: array<Record>, lo: int, hi: int, ghost condLen: nat) returns (loguy: int, higuy: int)
    requires 0 <= lo && lo + CUTOFF <= hi < a.Length && Uniform(a[..], condLen)
    modifies a
    ensures RearrangedWithin(old(a[..]), a[..], lo, hi)
    ensures Split(a[..], lo, hi, higuy, loguy)
    ensures Uniform(a[..], condLen)
  {
    var size := hi - lo + 1;
    var mid := lo + size / 2;
    MedianOfThree(a, lo, mid, hi, condLen);
    loguy, higuy, mid := Scan(a, lo, mid, hi, condLen);
    higuy := SkipEqual(a, lo, mid, hi, loguy, higuy, condLen);
  }

  /** What every step of the quicksort keeps, with s0 the original block and s the present one. */
  ghost predicate Invariant(s0: seq<Record>, s: seq<Record>, todo: seq<Range>, condLen: nat)
  {
    && multiset(s) == multiset(s0)
    && Uniform(s, condLen)
    && Disjoint(todo, |s|)
    && StackFits(todo, |s|)
    && SortedUpTo(s, todo)
  }

  /** Entries below the given height are the first pending ranges. */
  ghost predicate StackHolds(lostk: array<int>, histk: array<int>, todo: seq<Range>, height: int)
    reads lostk, histk
  {
    && 0 <= height <= lostk.Length == histk.Length && height <= |todo|
    && forall t :: 0 <= t < height ==> todo[t] == Range(lostk[t], histk[t])
  }

  lemma NothingPending(s0: seq<Record>, s: seq<Record>, condLen: nat)
    requires Invariant(s0, s, [], condLen)
    ensures Ascending(s)
  {
    assert forall i, j :: !Together([], i, j);
  }

  /** The whole-block sort, seen from the stack: the range is dropped and nothing else is disturbed. */
  method SortTop(a: array<Record>, ghost s0: seq<Record>, ghost rest: seq<Range>, ghost r: Range, ghost condLen: nat)
    requires Invariant(s0, a[..], rest + [r], condLen)
    modifies a
    ensures Invariant(s0, a[..], rest, condLen)
    ensures Work(rest) < Work(rest + [r])
  {
    assert (rest + [r])[|rest|] == r;
    assert forall t :: 0 <= t < |rest| ==> (rest + [r])[t] == rest[t];
    SelectionSort(a, condLen);
    WorkPush(rest, r);
  }

  /** Partition, seen from the stack: the parts replace the range. */
  method PartitionTop(a: array<Record>, lo: int, hi: int, ghost s0: seq<Record>, ghost rest: seq<Range>,
                      ghost condLen: nat)
    returns (loguy: int, higuy: int)
    requires 0 <= lo && lo + CUTOFF <= hi < a.Length
    requires Invariant(s0, a[..], rest + [Range(lo, hi)], condLen)
    modifies a
    ensures Invariant(s0, a[..], Pending(rest, Range(lo, hi), higuy, loguy), condLen)
    ensures Work(Pending(rest, Range(lo, hi), higuy, loguy)) < Work(rest + [Range(lo, hi)])
  {
    ghost var s, r := a[..], Range(lo, hi);
    loguy, higuy := Partition(a, lo, hi, condLen);
    PendingIsDisjoint(a[..], rest, r, higuy, loguy);
    PendingFits(a[..], rest, r, higuy, loguy, a.Length);
    PendingIsLess(a[..], rest, r, higuy, loguy);
    PendingSorted(s, a[..], rest, r, higuy, loguy);
  }

  /** Stacks the larger part and makes the smaller one current; again is false when no part is current. */
  method StackParts(lostk: array<int>, histk: array<int>, height: int, lo: int, hi: int, loguy: int, higuy: int,
                    ghost rest: seq<Range>)
    returns (height': int, lo': int, hi': int, again: bool)
    requires lostk != histk && StackHolds(lostk, histk, rest, height) && |rest| == height < lostk.Length
    modifies lostk, histk
    ensures var todo := Pending(rest, Range(lo, hi), higuy, loguy);
      && StackHolds(lostk, histk, todo, height')
      && |todo| == height' + (if again then 1 else 0)
      && (again ==> todo[height'] == Range(lo', hi'))
  {
    height', lo', hi', again := height, lo, hi, false;
    if higuy - lo >= hi - loguy {
      if lo < higuy {
        lostk[height'], histk[height'] := lo, higuy;
        height' := height' + 1;
      }
      if loguy < hi {
        lo', again := loguy, true;
      }
    } else {
      if loguy < hi {
        lostk[height'], histk[height'] := loguy, hi;
        height' := height' + 1;
      }
      if lo < higuy {
        hi', again := higuy, true;
      }
    }
  }

  /** One pass from the label recurse on: a short range has the whole block sorted, a long one is partitioned. */
  method Recurse(a: array<Record>, lostk: array<int>, histk: array<int>, height: int, lo: int, hi: int,
                 ghost s0: seq<Record>, ghost rest: seq<Range>, ghost condLen: nat)
    returns (height': int, lo': int, hi': int, again: bool, ghost todo: seq<Range>)
    requires a.Length <= INT_MAX && lostk.Length == STKSIZ && lostk != histk
    requires StackHolds(lostk, histk, rest, height) && |rest| == height
    requires Invariant(s0, a[..], rest + [Range(lo, hi)], condLen)
    modifies a, lostk, histk
    ensures Invariant(s0, a[..], todo, condLen) && Work(todo) < Work(rest + [Range(lo, hi)])
    ensures StackHolds(lostk, histk, todo, height') && |todo| == height' + (if again then 1 else 0)
    ensures again ==> todo[height'] == Range(lo', hi')
  {
    var size := hi - lo + 1;
    assert (rest + [Range(lo, hi)])[height] == Range(lo, hi);
    if size <= CUTOFF {
      SortTop(a, s0, rest, Range(lo, hi), condLen);
      return height, lo, hi, false, rest;
    }
    ShallowStack(size, height, a.Length);
    var loguy, higuy := PartitionTop(a, lo, hi, s0, rest, condLen);
    todo := Pending(rest, Range(lo, hi), higuy, loguy);
    ghost var now := a[..];
    height', lo', hi', again := StackParts(lostk, histk, height, lo, hi, loguy, higuy, rest);
    assert a[..] == now;
  }

  /** Quicksort with an explicit stack of fixed size; ranges up to CUTOFF trigger a sort of the whole block. */
  method QuickSort(a: array<Record>, ghost condLen: nat)
    requires Uniform(a[..], condLen) && a.Length <= INT_MAX
    modifies a
    ensures Ascending(a[..])
    ensures multiset(a[..]) == multiset(old(a[..]))
    ensures Uniform(a[..], condLen)
  {
    if a.Length < 2 {
      return;
    }
    ghost var s0 := a[..];
    var lostk, histk := new int[STKSIZ], new int[STKSIZ];
    var stkptr := 0;
    var lo, hi := 0, a.Length - 1;
    ghost var todo := [Range(lo, hi)];
    while true
      invariant StackHolds(lostk, histk, todo, stkptr)
      invariant |todo| == stkptr + 1 && todo[stkptr] == Range(lo, hi)
      invariant Invariant(s0, a[..], todo, condLen)
      decreases Work(todo)
    {
      ghost var rest := todo[..stkptr];
      assert todo == rest + [Range(lo, hi)];
      var again;
      stkptr, lo, hi, again, todo := Recurse(a, lostk, histk, stkptr, lo, hi, s0, rest, condLen);
      if again {
        continue;
      }
      stkptr := stkptr - 1;
      if stkptr >= 0 {
        lo, hi := lostk[stkptr], histk[stkptr];
      } else {
        NothingPending(s0, a[..], condLen);
        return;
      }
    }
  }
}
