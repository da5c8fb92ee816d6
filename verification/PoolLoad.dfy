/** The thread pool's load controller: one sample of the load every five seconds, and the resizing that follows. */
module PoolLoad {

  datatype Attr = Attr(maxsize: int, minsize: int, hload: int, lload: int)

  /** What a sample says; a pool at its largest size is not measured. */
  datatype Load = High | Low | Normal | AtLimit

  /** C's division, which cuts towards zero. */
  function Quotient(a: int, b: int): int
    requires b != 0
  {
    if a >= 0 then a / b else -((-a) / b)
  }

  function LoadOf(attr: Attr, cursize: int, available: int): Load
    requires cursize != 0
  {
    var rate := Quotient((cursize - available) * 100, cursize);
    if cursize == attr.maxsize then AtLimit
    else if rate >= attr.hload then High
    else if rate <= attr.lload then Low
    else Normal
  }

  /** The counter of like samples after one more: positive for high load, negative for low. */
  function Silver(load: Load, silver: int): int {
    match load
    case High => if silver <= 0 then 1 else silver + 1
    case Low => if silver >= 0 then -1 else silver - 1
    case _ => silver
  }

  function Wanted(load: Load, silver: int, cursize: int): int {
    if load == AtLimit then 0
    else if silver > 5 then Quotient(cursize, 5)
    else if silver < -5 then -Quotient(cursize, 5)
    else 0
  }

  /** The size asked for, kept within the limits in the direction it goes. */
  function Clamped(attr: Attr, cursize: int, ctl: int): int {
    if ctl > 0 && cursize + ctl > attr.maxsize then attr.maxsize - cursize
    else if ctl < 0 && cursize + ctl < attr.minsize then attr.minsize - cursize
    else ctl
  }

  /** How many workers are created: the attempts up to the first that fails, n at most. */
  function Created(seen: seq<bool>, n: nat): (k: nat)
    ensures k <= n
  {
    if n == 0 || seen == [] || !seen[0] then 0 else 1 + Created(seen[1..], n - 1)
  }

  /** How many workers are cancelled: those found ready in the list, n at most. */
  function Cancelled(seen: seq<bool>, n: nat): (k: nat)
    ensures k <= n
  {
    if n == 0 || seen == [] then 0
    else if seen[0] then 1 + Cancelled(seen[1..], n - 1)
    else Cancelled(seen[1..], n)
  }

  /**
   * The change of cursize. seen says of each attempt to create a worker whether it succeeds, or of each worker of
   * the list whether it is ready when the walk comes to it.
   */
  function Change(attr: Attr, cursize: int, available: int, size: int, seen: seq<bool>): int {
    if size > 0 then if cursize + size > attr.maxsize then 0 else Created(seen, size)
    else if size < 0 then if available < -size then 0 else -(Cancelled(seen, -size) as int)
    else 0
  }

  datatype State = State(cursize: int, silver: int)

  /** One tick: what was sampled, the resize it called for (0 for none), and the state after it. */
  datatype Tick = Tick(load: Load, ctl: int, after: State)

  /** A tick that finds some available workers, and these outcomes when it creates or looks at workers. */
  function TickOf(attr: Attr, s: State, available: int, seen: seq<bool>): Tick
    requires s.cursize != 0
  {
    var load := LoadOf(attr, s.cursize, available);
    var silver := Silver(load, s.silver);
    var ctl := Wanted(load, silver, s.cursize);
    var change := Change(attr, s.cursize, available, Clamped(attr, s.cursize, ctl), seen);
    Tick(load, ctl, State(s.cursize + change, if ctl == 0 then silver else 0))
  }

  class Pool {
    const attr: Attr
    var cursize: int
    var available: int
    var rate: int
    var loadsilver: int

    ghost function Now(): State
      reads this
    {
      State(cursize, loadsilver)
    }

    constructor (attr: Attr)
      ensures this.attr == attr && Now() == State(0, 0) && available == 0
    {
      this.attr := attr;
      cursize, available, rate, loadsilver := 0, 0, 0, 0;
    }

    /** Tpool_loadcal */
    method LoadCal() returns (ctl: int)
      requires cursize != 0
      modifies this`rate, this`loadsilver
      ensures var load := LoadOf(attr, cursize, available);
        && loadsilver == Silver(load, old(loadsilver))
        && ctl == Wanted(load, loadsilver, cursize)
    {
      rate := Quotient((cursize - available) * 100, cursize);
      if cursize == attr.maxsize || cursize == attr.maxsize {
        return 0;
      }
      if rate >= attr.hload {
        if loadsilver <= 0 {
          loadsilver := 1;
        } else {
          loadsilver := loadsilver + 1;
        }
      } else if rate <= attr.lload {
        if loadsilver >= 0 {
          loadsilver := -1;
        } else {
          loadsilver := loadsilver - 1;
        }
      }
      if loadsilver > 5 {
        ctl := Quotient(cursize, 5);
      } else if loadsilver < -5 {
        ctl := 0 - Quotient(cursize, 5);
      } else {
        ctl := 0;
      }
    }

    /** _Tpool_sizectl; -1 is an error, else 0 for an expansion and the number of workers cancelled for a shrinking. */
    method SizeCtl(size: int, seen: seq<bool>) returns (rc: int)
      modifies this`cursize, this`available
      ensures cursize == old(cursize) + Change(attr, old(cursize), old(available), size, seen)
      ensures available - cursize == old(available - cursize)
      ensures old(cursize) <= attr.maxsize ==> cursize <= attr.maxsize
      ensures rc == if size > 0 && cursize == old(cursize) + size then 0
                    else if size < 0 && old(available) >= -size then old(cursize) - cursize
                    else -1
    {
      if size > 0 {
        if cursize + size > attr.maxsize {
          return -1;
        }
        rc := CreateWorkers(size, seen);
      } else if size < 0 {
        if available < 0 - size {
          return -1;
        }
        rc := CancelReady(0 - size, seen);
      } else {
        return -1;
      }
    }

    /** Tpool_createworker: stops at the first failure. */
    method CreateWorkers(num: nat, seen: seq<bool>) returns (rc: int)
      modifies this`cursize, this`available
      ensures cursize == old(cursize) + Created(seen, num) && available - cursize == old(available - cursize)
      ensures rc == if Created(seen, num) == num then 0 else -1
    {
      var loop, i := num, 0;
      while loop > 0
        invariant 0 <= loop <= num && i == num - loop <= |seen|
        invariant cursize == old(cursize) + i && available - cursize == old(available - cursize)
        invariant Created(seen, num) == i + Created(seen[i..], loop)
      {
        if i == |seen| || !seen[i] {
          return -1;
        }
        cursize := cursize + 1;
        available := available + 1;
        loop, i := loop - 1, i + 1;
      }
      return 0;
    }

    /** The walk over the list of workers that cancels the ready ones. */
    method CancelReady(num: nat, seen: seq<bool>) returns (loop: int)
      requires num > 0
      modifies this`cursize, this`available
      ensures cursize == old(cursize) - Cancelled(seen, num) && available - cursize == old(available - cursize)
      ensures loop == Cancelled(seen, num)
    {
      loop := 0;
      var i := 0;
      while i < |seen|
        invariant 0 <= i <= |seen| && 0 <= loop < num
        invariant cursize == old(cursize) - loop && available - cursize == old(available - cursize)
        invariant Cancelled(seen, num) == loop + Cancelled(seen[i..], num - loop)
      {
        if seen[i] {
          cursize := cursize - 1;
          available := available - 1;
          loop := loop + 1;
        }
        i := i + 1;
        if loop == num {
          break;
        }
      }
    }

    /** The branch of Tpool_monitor that a timeout takes. */
    method Tick(seen: seq<bool>)
      requires cursize != 0
      modifies this
      ensures Now() == TickOf(attr, old(Now()), old(available), seen).after
    {
      var loadctl := LoadCal();
      if loadctl > 0 {
        if cursize + loadctl > attr.maxsize {
          loadctl := attr.maxsize - cursize;
        }
        var rc := SizeCtl(loadctl, seen);
        loadsilver := 0;
      } else if loadctl < 0 {
        if cursize + loadctl < attr.minsize {
          loadctl := attr.minsize - cursize;
        }
        var rc := SizeCtl(loadctl, seen);
        loadsilver := 0;
      }
    }
  }

  // Runs of ticks.

  /** What the workers make of a tick: how many are free at it, and what becomes of creations or the list shows. */
  datatype Input = Input(available: int, seen: seq<bool>)

  predicate Within(attr: Attr, s: State) {
    1 <= attr.minsize <= s.cursize <= attr.maxsize
  }

  lemma TickStaysWithin(attr: Attr, s: State, available: int, seen: seq<bool>)
    requires Within(attr, s)
    ensures Within(attr, TickOf(attr, s, available, seen).after)
  {
  }

  /** The ticks of a run. */
  function Ticks(attr: Attr, s: State, inputs: seq<Input>): (h: seq<Tick>)
    requires Within(attr, s)
    ensures |h| == |inputs| && Within(attr, Last(s, h))
  {
    if inputs == [] then []
    else
      var h := Ticks(attr, s, inputs[..|inputs| - 1]);
      var i := inputs[|inputs| - 1];
      TickStaysWithin(attr, Last(s, h), i.available, i.seen);
      h + [TickOf(attr, Last(s, h), i.available, i.seen)]
  }

  function Last(s: State, h: seq<Tick>): State {
    if h == [] then s else h[|h| - 1].after
  }

  function Opposite(d: Load): Load {
    if d == High then Low else High
  }

  /** How many samples of a load there were since the last opposite one and the last resize. */
  function Since(d: Load, h: seq<Tick>): nat
    decreases |h|, 0
  {
    if h == [] then 0
    else
      var t := h[|h| - 1];
      if t.ctl != 0 then 0 else Sampled(d, t.load, h[..|h| - 1])
  }

  /** The same with a sample that is just taken. */
  function Sampled(d: Load, load: Load, h: seq<Tick>): nat
    decreases |h|, 1
  {
    if load == Opposite(d) then 0 else Since(d, h) + if load == d then 1 else 0
  }

  lemma {:induction false} SilverCounts(attr: Attr, s: State, inputs: seq<Input>)
    requires Within(attr, s) && s.silver == 0
    ensures var h := Ticks(attr, s, inputs);
      && Last(s, h).silver == Since(High, h) - Since(Low, h)
      && (Since(High, h) == 0 || Since(Low, h) == 0)
  {
    if inputs != [] {
      SilverCounts(attr, s, inputs[..|inputs| - 1]);
      var front, h := Ticks(attr, s, inputs[..|inputs| - 1]), Ticks(attr, s, inputs);
      assert h[..|h| - 1] == front;
    }
  }

  /**
   * The pool grows in a tick only after at least six samples of high load since the last one of low load and
   * the last resize, and shrinks only after six of low load; and it stays within its limits.
   */
  lemma ResizedAfterSix(attr: Attr, s: State, inputs: seq<Input>, i: Input)
    requires Within(attr, s) && s.silver == 0
    ensures var h := Ticks(attr, s, inputs);
      var was, t := Last(s, h), TickOf(attr, Last(s, h), i.available, i.seen);
      && Ticks(attr, s, inputs + [i]) == h + [t]
      && Within(attr, t.after)
      && (t.after.cursize > was.cursize ==> t.ctl > 0) && (t.after.cursize < was.cursize ==> t.ctl < 0)
      && (t.ctl > 0 ==> Sampled(High, t.load, h) >= 6)
      && (t.ctl < 0 ==> Sampled(Low, t.load, h) >= 6)
  {
    SilverCounts(attr, s, inputs);
    assert (inputs + [i])[..|inputs|] == inputs;
    TickStaysWithin(attr, Last(s, Ticks(attr, s, inputs)), i.available, i.seen);
  }

  /** Six samples are enough for a pool of five workers or more that is not at its limit. */
  lemma SixAreEnough(attr: Attr, s: State, inputs: seq<Input>, i: Input)
    requires Within(attr, s) && s.silver == 0
    ensures var h := Ticks(attr, s, inputs);
      var was, t := Last(s, h), TickOf(attr, Last(s, h), i.available, i.seen);
      t.load != AtLimit ==>
        && (t.ctl > 0 <==> Sampled(High, t.load, h) >= 6 && was.cursize >= 5)
        && (t.ctl < 0 <==> Sampled(Low, t.load, h) >= 6 && was.cursize >= 5)
  {
    SilverCounts(attr, s, inputs);
  }

  /** A pool at its largest size is not measured, so over any run of ticks it stays there, whatever the load. */
  lemma {:induction false} StaysAtLargest(attr: Attr, s: State, inputs: seq<Input>)
    requires Within(attr, s) && s.cursize == attr.maxsize
    ensures var h := Ticks(attr, s, inputs);
      Last(s, h) == s && forall k :: 0 <= k < |h| ==> h[k] == Tick(AtLimit, 0, s)
  {
    if inputs != [] {
      StaysAtLargest(attr, s, inputs[..|inputs| - 1]);
    }
  }

  /** Since counts what it says: no opposite sample and no resize among the ticks that it covers. */
  lemma {:induction false} SinceCovers(d: Load, h: seq<Tick>)
    requires d == High || d == Low
    ensures exists j :: Covers(d, h, j) && Samples(d, h[j..]) == Since(d, h)
  {
    if h == [] {
      assert Covers(d, h, 0);
    } else {
      var t, front := h[|h| - 1], h[..|h| - 1];
      if t.ctl != 0 || t.load == Opposite(d) {
        var j := |h|;
        assert h[j..] == [] && Samples(d, h[j..]) == 0 && Since(d, h) == 0;
        assert Covers(d, h, j);
      } else {
        SinceCovers(d, front);
        var j :| Covers(d, front, j) && Samples(d, front[j..]) == Since(d, front);
        CoversOneMore(d, front, t, j);
        assert h == front + [t];
        assert Covers(d, h, j) && Samples(d, h[j..]) == Since(d, h);
      }
    }
  }

  lemma CoversOneMore(d: Load, front: seq<Tick>, t: Tick, j: int)
    requires Covers(d, front, j) && t.load != Opposite(d) && t.ctl == 0
    ensures Covers(d, front + [t], j)
    ensures Samples(d, (front + [t])[j..]) == Samples(d, front[j..]) + if t.load == d then 1 else 0
  {
    var h := front + [t];
    assert forall k :: 0 <= k < |front| ==> h[k] == front[k];
    assert h[j..] == front[j..] + [t] && h[j..][..|front| - j] == front[j..];
  }

  ghost predicate Covers(d: Load, h: seq<Tick>, j: int) {
    && 0 <= j <= |h|
    && (forall k :: j <= k < |h| ==> h[k].load != Opposite(d) && h[k].ctl == 0)
    && (j > 0 ==> h[j - 1].load == Opposite(d) || h[j - 1].ctl != 0)
  }

  function Samples(d: Load, h: seq<Tick>): nat {
    if h == [] then 0 else Samples(d, h[..|h| - 1]) + if h[|h| - 1].load == d then 1 else 0
  }

  // What the pool does, in terms of its busy workers alone.

  /** What a share of busy workers says: at least hload percent, or less than one percent above lload. */
  ghost predicate Measures(attr: Attr, d: Load, size: int, available: int) {
    var busy := size - available;
    match d
    case AtLimit => size == attr.maxsize
    case High => size != attr.maxsize && 100 * busy >= attr.hload * size
    case Low => size != attr.maxsize && 100 * busy < attr.hload * size && 100 * busy < (attr.lload + 1) * size
    case Normal => size != attr.maxsize && (attr.lload + 1) * size <= 100 * busy < attr.hload * size
  }

  /** With more workers free than there are, only thresholds above zero tell the loads apart. */
  predicate Measurable(attr: Attr, size: int, available: int) {
    available <= size || (attr.hload > 0 && attr.lload >= 0)
  }

  lemma QuotientBounds(a: int, b: int, q: int)
    requires b > 0 && a >= 0
    ensures Quotient(a, b) >= q <==> a >= q * b
  {
    var r := a / b;
    assert r * b <= a < (r + 1) * b;
    if r >= q {
      assert r * b >= q * b;
    } else {
      assert (r + 1) * b <= q * b;
    }
  }

  lemma BelowZero(a: int, b: int, q: int)
    requires b > 0 && a < 0 && q > 0
    ensures Quotient(a, b) < q && a < q * b
  {
    assert q * b >= 0;
  }

  lemma LoadMeans(attr: Attr, d: Load, size: int, available: int)
    requires size > 0 && Measurable(attr, size, available)
    ensures LoadOf(attr, size, available) == d <==> Measures(attr, d, size, available)
  {
    var busy := (size - available) * 100;
    if busy >= 0 {
      QuotientBounds(busy, size, attr.hload);
      QuotientBounds(busy, size, attr.lload + 1);
    } else {
      BelowZero(busy, size, attr.hload);
      BelowZero(busy, size, attr.lload + 1);
    }
  }

  function StateAt(s: State, h: seq<Tick>, k: nat): State
    requires k <= |h|
  {
    if k == 0 then s else h[k - 1].after
  }

  lemma {:induction false} TickAt(attr: Attr, s: State, inputs: seq<Input>, k: nat)
    requires Within(attr, s) && k < |inputs|
    ensures var h := Ticks(attr, s, inputs);
      && Within(attr, StateAt(s, h, k))
      && h[k] == TickOf(attr, StateAt(s, h, k), inputs[k].available, inputs[k].seen)
  {
    var n := |inputs| - 1;
    if k < n {
      TickAt(attr, s, inputs[..n], k);
    }
  }

  ghost predicate AllMeasurable(attr: Attr, s: State, inputs: seq<Input>)
    requires Within(attr, s)
  {
    forall k :: 0 <= k < |inputs| ==>
      Measurable(attr, StateAt(s, Ticks(attr, s, inputs), k).cursize, inputs[k].available)
  }

  /** The ticks from j on at which the busy workers say d. */
  ghost function Saying(attr: Attr, d: Load, s: State, inputs: seq<Input>, j: int): set<int>
    requires Within(attr, s) && j >= 0
  {
    set k | j <= k < |inputs| &&
      Measures(attr, d, StateAt(s, Ticks(attr, s, inputs), k).cursize, inputs[k].available)
  }

  ghost function SampledAt(d: Load, h: seq<Tick>, j: int): set<int>
    requires j >= 0
  {
    set k | j <= k < |h| && h[k].load == d
  }

  lemma SayingIsSampled(attr: Attr, d: Load, s: State, inputs: seq<Input>, j: int)
    requires Within(attr, s) && j >= 0 && AllMeasurable(attr, s, inputs)
    ensures Saying(attr, d, s, inputs, j) == SampledAt(d, Ticks(attr, s, inputs), j)
  {
    var h := Ticks(attr, s, inputs);
    forall k: int | 0 <= k < |inputs|
      ensures h[k].load == d <==> Measures(attr, d, StateAt(s, h, k).cursize, inputs[k].available)
    {
      TickAt(attr, s, inputs, k);
      LoadMeans(attr, d, StateAt(s, h, k).cursize, inputs[k].available);
    }
  }

  lemma {:induction false} SamplesCount(d: Load, h: seq<Tick>, j: int)
    requires 0 <= j <= |h|
    ensures |SampledAt(d, h, j)| == Samples(d, h[j..])
    decreases |h|
  {
    if j == |h| {
      assert SampledAt(d, h, j) == {};
    } else {
      var n := |h| - 1;
      SamplesCount(d, h[..n], j);
      assert h[j..][..n - j] == h[..n][j..];
      assert SampledAt(d, h, j) == SampledAt(d, h[..n], j) + if h[n].load == d then {n} else {};
    }
  }

  /** No opposite sample from j on. */
  ghost predicate Clean(d: Load, h: seq<Tick>, j: int) {
    0 <= j <= |h| && forall k :: j <= k < |h| ==> h[k].load != Opposite(d) && h[k].ctl == 0
  }

  lemma {:induction false} SinceAtLeast(d: Load, h: seq<Tick>, j: int)
    requires Clean(d, h, j)
    ensures Since(d, h) >= Samples(d, h[j..])
    decreases |h|
  {
    if j < |h| {
      var n := |h| - 1;
      SinceAtLeast(d, h[..n], j);
      assert h[j..][..n - j] == h[..n][j..];
    }
  }

  /** At least six ticks from j on say d, none says the opposite, and no resize was asked for before the last tick. */
  ghost predicate SixFrom(attr: Attr, d: Load, s: State, inputs: seq<Input>, j: int)
    requires Within(attr, s)
  {
    var h := Ticks(attr, s, inputs);
    && 0 <= j < |inputs|
    && |Saying(attr, d, s, inputs, j)| >= 6
    && Saying(attr, Opposite(d), s, inputs, j) == {}
    && forall k :: j <= k < |inputs| - 1 ==> h[k].ctl == 0
  }

  lemma TicksSnoc(attr: Attr, s: State, inputs: seq<Input>)
    requires Within(attr, s) && inputs != []
    ensures var n, h := |inputs| - 1, Ticks(attr, s, inputs);
      && h[..n] == Ticks(attr, s, inputs[..n]) && StateAt(s, h, n) == Last(s, h[..n])
      && h[n] == TickOf(attr, StateAt(s, h, n), inputs[n].available, inputs[n].seen)
      && h == h[..n] + [h[n]]
  {
  }

  lemma SamplesSnoc(d: Load, h: seq<Tick>, j: int)
    requires 0 <= j < |h|
    ensures var n := |h| - 1;
      Samples(d, h[j..]) == Samples(d, h[..n][j..]) + if h[n].load == d then 1 else 0
  {
    var n := |h| - 1;
    assert h[j..][..n - j] == h[..n][j..];
  }

  lemma SixAreSampled(attr: Attr, d: Load, s: State, inputs: seq<Input>, j: int)
    requires Within(attr, s) && AllMeasurable(attr, s, inputs) && (d == High || d == Low)
    requires SixFrom(attr, d, s, inputs, j)
    ensures var h, n := Ticks(attr, s, inputs), |inputs| - 1;
      Sampled(d, h[n].load, h[..n]) >= 6
  {
    var h, n := Ticks(attr, s, inputs), |inputs| - 1;
    SayingIsSampled(attr, d, s, inputs, j);
    SayingIsSampled(attr, Opposite(d), s, inputs, j);
    assert forall k :: j <= k <= n && h[k].load == Opposite(d) ==> k in SampledAt(Opposite(d), h, j);
    assert Clean(d, h[..n], j);
    SinceAtLeast(d, h[..n], j);
    SamplesCount(d, h, j);
    SamplesSnoc(d, h, j);
  }

  lemma SampledAreSix(attr: Attr, d: Load, s: State, inputs: seq<Input>) returns (j: int)
    requires Within(attr, s) && AllMeasurable(attr, s, inputs) && (d == High || d == Low) && inputs != []
    requires var h, n := Ticks(attr, s, inputs), |inputs| - 1; Sampled(d, h[n].load, h[..n]) >= 6
    ensures SixFrom(attr, d, s, inputs, j)
  {
    var h, n := Ticks(attr, s, inputs), |inputs| - 1;
    SinceCovers(d, h[..n]);
    j :| Covers(d, h[..n], j) && Samples(d, h[..n][j..]) == Since(d, h[..n]);
    SamplesSnoc(d, h, j);
    SamplesCount(d, h, j);
    SayingIsSampled(attr, d, s, inputs, j);
    SayingIsSampled(attr, Opposite(d), s, inputs, j);
    assert forall k :: j <= k < n ==> h[k] == h[..n][k];
  }

  /**
   Over any run a tick asks for more workers exactly when the pool has five or more, is not at its largest size,
   and at six ticks or more since the last resize, without one of low load between, so many workers were busy;
   and for fewer likewise.
   */
  lemma ResizesExactly(attr: Attr, d: Load, s: State, inputs: seq<Input>)
    requires Within(attr, s) && s.silver == 0 && AllMeasurable(attr, s, inputs)
    requires (d == High || d == Low) && inputs != []
    ensures var h, n := Ticks(attr, s, inputs), |inputs| - 1;
      var size := StateAt(s, h, n).cursize;
      (if d == High then h[n].ctl > 0 else h[n].ctl < 0) <==>
      5 <= size != attr.maxsize && exists j :: SixFrom(attr, d, s, inputs, j)
  {
    var h, n := Ticks(attr, s, inputs), |inputs| - 1;
    TicksSnoc(attr, s, inputs);
    SixAreEnough(attr, s, inputs[..n], inputs[n]);
    if Sampled(d, h[n].load, h[..n]) >= 6 {
      var j := SampledAreSix(attr, d, s, inputs);
    } else if j :| SixFrom(attr, d, s, inputs, j) {
      SixAreSampled(attr, d, s, inputs, j);
      assert false;
    }
  }

  // How many workers come or go.

  /** k workers were created of n: all of them, or those before the first failure. */
  ghost predicate IsCreated(seen: seq<bool>, n: int, k: int) {
    0 <= k <= n && k <= |seen| && (forall i :: 0 <= i < k ==> seen[i]) && (k == n || k == |seen| || !seen[k])
  }

  lemma {:induction false} CreatedUpToFailure(seen: seq<bool>, n: nat)
    ensures IsCreated(seen, n, Created(seen, n))
  {
    if n > 0 && seen != [] && seen[0] {
      CreatedUpToFailure(seen[1..], n - 1);
      assert forall i :: 1 <= i < |seen| ==> seen[i] == seen[1..][i - 1];
    }
  }

  ghost function Ready(seen: seq<bool>): nat {
    multiset(seen)[true]
  }

  lemma {:induction false} CancelledAreReady(seen: seq<bool>, n: nat)
    ensures Cancelled(seen, n) == Least(Ready(seen), n)
  {
    if n > 0 && seen != [] {
      assert seen == [seen[0]] + seen[1..];
      CancelledAreReady(seen[1..], if seen[0] then n - 1 else n);
    }
  }

  function Least(a: int, b: int): int {
    if a < b then a else b
  }

  /** A fifth of the pool is asked for, and what is not within the limits is left off. */
  lemma ResizeAmount(attr: Attr, s: State, available: int, seen: seq<bool>)
    requires Within(attr, s)
    ensures var t := TickOf(attr, s, available, seen);
      var size, after := s.cursize, t.after.cursize;
      && (t.ctl == 0 ==> after == size)
      && (t.ctl != 0 ==> 5 * Abs(t.ctl) <= size < 5 * Abs(t.ctl) + 5 && t.after.silver == 0)
      && (t.ctl > 0 ==> IsCreated(seen, Least(t.ctl, attr.maxsize - size), after - size))
      && (t.ctl < 0 ==>
           var n := Least(-t.ctl, size - attr.minsize);
           after == size - if available < n then 0 else Least(Ready(seen), n))
  {
    var t := TickOf(attr, s, available, seen);
    var n := Clamped(attr, s.cursize, t.ctl);
    if n > 0 {
      CreatedUpToFailure(seen, n);
    } else {
      CancelledAreReady(seen, -n);
    }
  }

  function Abs(x: int): int {
    if x < 0 then -x else x
  }
}
