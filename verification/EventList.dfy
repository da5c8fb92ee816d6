/** The thread pool's event list: one circular, doubly linked ring kept in stable priority order. */
module EventList {

  /** A task as the queue sees it. */
  datatype Item<T> = Item(arg: T, priority: int)

  class Task<T> {
    const arg: T
    const priority: int
    var next: Task?<T>
    var prev: Task?<T>

    constructor (arg: T, priority: int)
      ensures this.arg == arg && this.priority == priority
    {
      this.arg, this.priority := arg, priority;
      next, prev := null, null;
    }
  }

  /** r is the ring that starts at head: next and prev are inverse and close up. */
  ghost predicate Ring<T>(head: Task?<T>, r: seq<Task<T>>)
    reads r`next, r`prev
  {
    if r == [] then head == null
    else
      var last := |r| - 1;
      && head == r[0]
      && (forall k {:trigger r[k].next} :: 0 <= k < last ==> r[k].next == r[k + 1])
      && (forall k {:trigger r[k].prev} :: 0 < k <= last ==> r[k].prev == r[k - 1])
      && r[last].next == r[0] && r[0].prev == r[last]
      && forall k, m :: 0 <= k < m < |r| ==> r[k] != r[m]
  }

  ghost function Items<T>(r: seq<Task<T>>): (q: seq<Item<T>>)
    ensures |q| == |r| && forall k :: 0 <= k < |r| ==> q[k] == Item(r[k].arg, r[k].priority)
  {
    seq(|r|, k requires 0 <= k < |r| => Item(r[k].arg, r[k].priority))
  }

  /** Where the backward walk puts a task: behind the last one whose priority does not exceed its own. */
  function Position<T>(q: seq<Item<T>>, priority: int): (p: nat)
    ensures p <= |q|
    ensures p > 0 ==> q[p - 1].priority <= priority
    ensures forall k :: p <= k < |q| ==> q[k].priority > priority
  {
    if q == [] then 0
    else if q[|q| - 1].priority <= priority then |q|
    else Position(q[..|q| - 1], priority)
  }

  function Enqueue<T>(q: seq<Item<T>>, x: Item<T>): seq<Item<T>>
  {
    var p := Position(q, x.priority);
    q[..p] + [x] + q[p..]
  }

  lemma PositionIsUnique<T>(q: seq<Item<T>>, priority: int, p: nat)
    requires p <= |q| && (p > 0 ==> q[p - 1].priority <= priority)
    requires forall k :: p <= k < |q| ==> q[k].priority > priority
    ensures p == Position(q, priority)
  {
    var p' := Position(q, priority);
    assert p' > 0 ==> q[p' - 1].priority <= priority;
    assert p > 0 ==> q[p - 1].priority <= priority;
  }

  /** The ring with a task where its priority belongs. */
  ghost function WithTask<T>(r: seq<Task<T>>, task: Task<T>): (c: seq<Task<T>>)
    ensures Items(c) == Enqueue(Items(r), Item(task.arg, task.priority))
    ensures |c| == |r| + 1 && forall t :: t in c ==> t == task || t in r
  {
    var p := Position(Items(r), task.priority);
    r[..p] + [task] + r[p..]
  }

  /** The backward walk from the head: the first task met whose priority does not exceed the new one's. */
  method WalkBack<T>(head: Task<T>, ghost r: seq<Task<T>>, priority: int) returns (tmp: Task<T>, found: bool)
    requires r != [] && Ring(head, r)
    ensures var p := Position(Items(r), priority);
      && (found <==> p > 0)
      && tmp == if p > 0 then r[p - 1] else head
  {
    tmp, found := head, false;
    ghost var k := |r|;
    while true
      invariant 0 < k <= |r| && tmp == if k == |r| then head else r[k]
      invariant forall m :: k <= m < |r| ==> r[m].priority > priority
      decreases k
    {
      tmp := tmp.prev;
      k := k - 1;
      assert tmp == r[k];
      if tmp.priority <= priority {
        PositionIsUnique(Items(r), priority, k + 1);
        return tmp, true;
      }
      if tmp == head {
        PositionIsUnique(Items(r), priority, 0);
        return tmp, false;
      }
    }
  }

  /** A task linked into the ring at position p, between before and after. */
  method Splice<T>(head: Task<T>, before: Task<T>, after: Task<T>, task: Task<T>, ghost r: seq<Task<T>>, ghost p: nat)
    requires r != [] && Ring(head, r) && p <= |r| && task !in r
    requires before == r[if p > 0 then p - 1 else |r| - 1]
    requires after == r[if p < |r| then p else 0]
    modifies r`next, r`prev, task`next, task`prev
    ensures Ring(if p > 0 then head else task, r[..p] + [task] + r[p..])
  {
    after.prev := task;
    task.next := after;
    before.next := task;
    task.prev := before;
    ghost var c := r[..p] + [task] + r[p..];
    assert forall k :: 0 <= k < |c| ==> c[k] == if k < p then r[k] else if k == p then task else r[k - 1];
  }

  /** A task put where its priority belongs; the new head is returned. */
  method Place<T>(head: Task<T>, ghost r: seq<Task<T>>, task: Task<T>) returns (head': Task<T>)
    requires r != [] && Ring(head, r) && task !in r
    modifies r`next, r`prev, task`next, task`prev
    ensures Ring(head', WithTask(r, task))
  {
    ghost var p := Position(Items(r), task.priority);
    var tmp, found := WalkBack(head, r, task.priority);
    if found {
      Splice(head, tmp, tmp.next, task, r, p);
      head' := head;
    } else {
      Splice(head, tmp.prev, tmp, task, r, p);
      head' := task;
    }
  }

  class EventQueue<T> {
    var elist: Task?<T>
    var num: nat
    ghost var ring: seq<Task<T>>

    ghost predicate Valid()
      reads this, ring
    {
      Ring(elist, ring) && num == |ring|
    }

    /** The queued tasks from the head on. */
    ghost function Contents(): seq<Item<T>>
      reads this
    {
      Items(ring)
    }

    constructor ()
      ensures Valid() && Contents() == [] && ring == []
    {
      elist, num, ring := null, 0, [];
    }

    /** EventListADD and the count kept by Tpool_addevt. */
    method Add(arg: T, priority: int)
      requires Valid()
      modifies this, ring`next, ring`prev
      ensures Valid() && Contents() == Enqueue(old(Contents()), Item(arg, priority))
      ensures forall i :: 0 <= i < |ring| ==> ring[i] in old(ring) || fresh(ring[i])
    {
      var task := new Task(arg, priority);
      ghost var now := WithTask(ring, task);
      if elist == null {
        elist := task;
        elist.next := elist;
        elist.prev := elist;
        assert now == [task];
      } else {
        elist := Place(elist, ring, task);
      }
      num := num + 1;
      ring := now;
    }

    /** EventListPop and the count kept by Tpool_popevt: the head leaves the ring, null when there is none. */
    method Pop() returns (task: Task?<T>)
      requires Valid()
      modifies this, ring`next, ring`prev
      ensures Valid()
      ensures old(Contents()) == [] ==> task == null && Contents() == []
      ensures old(Contents()) != [] ==>
        task == old(ring[0]) && Contents() == old(Contents())[1..] && ring == old(ring[1..])
    {
      if elist == null {
        return null;
      }
      task := elist;
      assert Items(ring[1..]) == Items(ring)[1..];
      if elist.next == elist {
        elist := null;
      } else {
        elist := DropHead(elist, ring);
      }
      num := num - 1;
      ring := ring[1..];
    }

    /** EventListDestroy: the ring is cut open and every task is released; their number is returned. */
    method Destroy() returns (freed: nat)
      requires Valid()
      modifies this, ring`next
      ensures freed == |old(ring)| && Valid() && Contents() == []
    {
      freed := 0;
      if elist != null {
        freed := Release(elist, ring);
      }
      elist, num, ring := null, 0, [];
    }
  }

  method DropHead<T>(head: Task<T>, ghost r: seq<Task<T>>) returns (head': Task<T>)
    requires |r| > 1 && Ring(head, r)
    modifies r`next, r`prev
    ensures Ring(head', r[1..])
  {
    head.next.prev := head.prev;
    head.prev.next := head.next;
    head' := head.next;
    ghost var c := r[1..];
    assert forall k :: 0 <= k < |c| ==> c[k] == r[k + 1];
  }

  method Release<T>(head: Task<T>, ghost r: seq<Task<T>>) returns (freed: nat)
    requires r != [] && Ring(head, r)
    modifies r`next
    ensures freed == |r|
  {
    head.prev.next := null;
    var tmp: Task?<T> := head;
    freed := 0;
    while tmp != null
      invariant 0 <= freed <= |r| && tmp == if freed < |r| then r[freed] else null
      invariant forall k {:trigger r[k].next} :: 0 <= k < |r| - 1 ==> r[k].next == r[k + 1]
      invariant r[|r| - 1].next == null
      decreases |r| - freed
    {
      tmp := tmp.next;
      freed := freed + 1;
    }
  }

  // Runs of the queue: every task is numbered in the order of its addition.

  datatype Op<T> = Push(item: Item<T>) | Take

  datatype Ticket<T> = Ticket(item: Item<T>, number: nat)

  /** The queue with its numbers, what was popped so far, and how many tasks were added. */
  datatype Run<T> = Run(queue: seq<Ticket<T>>, popped: seq<Ticket<T>>, added: seq<Ticket<T>>)

  ghost function Bare<T>(q: seq<Ticket<T>>): (r: seq<Item<T>>)
    ensures |r| == |q| && forall k :: 0 <= k < |q| ==> r[k] == q[k].item
  {
    seq(|q|, k requires 0 <= k < |q| => q[k].item)
  }

  ghost function Do<T>(s: Run<T>, op: Op<T>): Run<T>
  {
    match op
    case Push(x) =>
      var t := Ticket(x, |s.added|);
      var p := Position(Bare(s.queue), x.priority);
      Run(s.queue[..p] + [t] + s.queue[p..], s.popped, s.added + [t])
    case Take =>
      if s.queue == [] then s else Run(s.queue[1..], s.popped + [s.queue[0]], s.added)
  }

  ghost function After<T>(ops: seq<Op<T>>): Run<T>
  {
    if ops == [] then Run([], [], []) else Do(After(ops[..|ops| - 1]), ops[|ops| - 1])
  }

  /** Least priority first; among equals the one added first. */
  ghost predicate Before<T>(a: Ticket<T>, b: Ticket<T>)
  {
    a.item.priority < b.item.priority || (a.item.priority == b.item.priority && a.number < b.number)
  }

  ghost predicate Sound<T>(s: Run<T>)
  {
    && Ordered(s.queue)
    && (forall k :: 0 <= k < |s.queue| ==> s.queue[k].number < |s.added|)
    && (forall k :: 0 <= k < |s.added| ==> s.added[k].number == k)
    && Conserved(s)
  }

  ghost predicate Conserved<T>(s: Run<T>)
  {
    multiset(s.queue) + multiset(s.popped) == multiset(s.added)
  }

  /** The numbered queue is the queue of the list, operation by operation. */
  lemma DoRefinesQueue<T>(s: Run<T>, op: Op<T>)
    ensures op.Push? ==> Bare(Do(s, op).queue) == Enqueue(Bare(s.queue), op.item)
    ensures op.Take? && s.queue != [] ==> Bare(Do(s, op).queue) == Bare(s.queue)[1..]
  {
    var q, next := s.queue, Do(s, op).queue;
    match op
    case Push(x) =>
      var t, p := Ticket(x, |s.added|), Position(Bare(q), x.priority);
      BareInserted(q, t, p);
    case Take =>
      assert q != [] ==> Bare(next) == Bare(q)[1..];
  }

  lemma BareInserted<T>(q: seq<Ticket<T>>, t: Ticket<T>, p: nat)
    requires p <= |q|
    ensures Bare(q[..p] + [t] + q[p..]) == Bare(q)[..p] + [t.item] + Bare(q)[p..]
  {
  }

  ghost predicate Ordered<T>(q: seq<Ticket<T>>)
  {
    forall k, m :: 0 <= k < m < |q| ==> Before(q[k], q[m])
  }

  lemma PushKeepsOrder<T>(q: seq<Ticket<T>>, t: Ticket<T>, p: nat)
    requires Ordered(q) && p == Position(Bare(q), t.item.priority)
    requires forall k :: 0 <= k < |q| ==> q[k].number < t.number
    ensures Ordered(q[..p] + [t] + q[p..])
  {
    assert p > 0 ==> Bare(q)[p - 1].priority <= t.item.priority;
    forall k | 0 <= k < p
      ensures Before(q[k], t)
    {
      assert k < p - 1 ==> Before(q[k], q[p - 1]);
    }
    forall k | p <= k < |q|
      ensures Before(t, q[k])
    {
      assert Bare(q)[k].priority > t.item.priority;
    }
  }

  lemma InsertCounts<T>(q: seq<T>, t: T, p: nat)
    requires p <= |q|
    ensures multiset(q[..p] + [t] + q[p..]) == multiset(q) + multiset{t}
  {
    assert q == q[..p] + q[p..];
  }

  lemma DoConserves<T>(s: Run<T>, op: Op<T>)
    requires Conserved(s)
    ensures Conserved(Do(s, op))
  {
    match op
    case Push(x) =>
      var t := Ticket(x, |s.added|);
      InsertCounts(s.queue, t, Position(Bare(s.queue), x.priority));
      assert multiset(s.added + [t]) == multiset(s.added) + multiset{t};
    case Take =>
      if s.queue != [] {
        assert s.queue == [s.queue[0]] + s.queue[1..];
      }
  }

  lemma PushKeepsNumbers<T>(q: seq<Ticket<T>>, t: Ticket<T>, p: nat)
    requires p <= |q| && forall k :: 0 <= k < |q| ==> q[k].number < t.number
    ensures var next := q[..p] + [t] + q[p..];
      forall k :: 0 <= k < |next| ==> next[k].number < t.number + 1
  {
  }

  lemma DoKeepsSound<T>(s: Run<T>, op: Op<T>)
    requires Sound(s)
    ensures Sound(Do(s, op))
  {
    DoConserves(s, op);
    if op.Push? {
      var t, p := Ticket(op.item, |s.added|), Position(Bare(s.queue), op.item.priority);
      PushKeepsOrder(s.queue, t, p);
      PushKeepsNumbers(s.queue, t, p);
    }
  }

  lemma {:induction false} AfterIsSound<T>(ops: seq<Op<T>>)
    ensures Sound(After(ops))
  {
    if ops != [] {
      AfterIsSound(ops[..|ops| - 1]);
      DoKeepsSound(After(ops[..|ops| - 1]), ops[|ops| - 1]);
    } else {
      assert multiset(After(ops).queue) + multiset(After(ops).popped) == multiset(After(ops).added);
    }
  }

  /** Whatever the run, a pop takes the earliest added among the queued tasks of least priority. */
  lemma PopTakesFirst<T>(ops: seq<Op<T>>)
    requires After(ops).queue != []
    ensures var s := After(ops);
      var next := After(ops + [Take]);
      && next.popped == s.popped + [s.queue[0]]
      && (forall t :: t in s.queue ==> t == s.queue[0] || Before(s.queue[0], t))
  {
    assert (ops + [Take])[..|ops|] == ops;
    AfterIsSound(ops);
    forall t | t in After(ops).queue
      ensures t == After(ops).queue[0] || Before(After(ops).queue[0], t)
    {
      var k :| 0 <= k < |After(ops).queue| && After(ops).queue[k] == t;
    }
  }

  /** Every added task is in the queue or has been popped, and only once. */
  lemma EachTaskOnce<T>(ops: seq<Op<T>>, t: Ticket<T>)
    ensures var s := After(ops);
      multiset(s.queue)[t] + multiset(s.popped)[t] == if t in s.added then 1 else 0
  {
    AfterIsSound(ops);
    var s := After(ops);
    assert (multiset(s.queue) + multiset(s.popped))[t] == multiset(s.added)[t];
    AddedOnce(s.added, t);
  }

  lemma {:induction false} AddedOnce<T>(added: seq<Ticket<T>>, t: Ticket<T>)
    requires forall k :: 0 <= k < |added| ==> added[k].number == k
    ensures multiset(added)[t] == if t in added then 1 else 0
  {
    if added != [] {
      var n := |added| - 1;
      AddedOnce(added[..n], t);
      assert added == added[..n] + [added[n]];
    }
  }

  lemma AfterOneMore<T>(ops: seq<Op<T>>, i: nat)
    requires i < |ops|
    ensures After(ops[..i + 1]) == Do(After(ops[..i]), ops[i])
  {
    assert ops[..i + 1][..i] == ops[..i];
  }

  lemma BarePopped<T>(s: Run<T>)
    requires s.queue != []
    ensures Bare(Do(s, Take).popped) == Bare(s.popped) + [s.queue[0].item]
  {
  }

  /** One operation on the ring does what the run model does. */
  method Perform<T>(q: EventQueue<T>, op: Op<T>, ghost s: Run<T>) returns (popped: seq<Item<T>>)
    requires q.Valid() && q.Contents() == Bare(s.queue)
    modifies q, q.ring`next, q.ring`prev
    ensures q.Valid() && q.Contents() == Bare(Do(s, op).queue)
    ensures Bare(Do(s, op).popped) == Bare(s.popped) + popped
    ensures forall i :: 0 <= i < |q.ring| ==> q.ring[i] in old(q.ring) || fresh(q.ring[i])
  {
    DoRefinesQueue(s, op);
    popped := [];
    match op {
      case Push(x) =>
        q.Add(x.arg, x.priority);
        assert Bare(s.popped) + [] == Bare(s.popped);
      case Take =>
        assert s.queue != [] ==> Items(q.ring)[0] == s.queue[0].item;
        var task := q.Pop();
        if task != null {
          BarePopped(s);
          popped := [Item(task.arg, task.priority)];
        } else {
          assert Bare(s.popped) + [] == Bare(s.popped);
        }
    }
  }

  /** Over every list of operations on an empty ring: what is left in it, and what came out, are those of the run. */
  method PerformAll<T>(q: EventQueue<T>, ops: seq<Op<T>>) returns (popped: seq<Item<T>>)
    requires q.Valid() && q.ring == []
    modifies q
    ensures q.Valid() && q.Contents() == Bare(After(ops).queue) && popped == Bare(After(ops).popped)
  {
    popped := [];
    var k := 0;
    while k < |ops|
      invariant 0 <= k <= |ops| && q.Valid()
      invariant forall i :: 0 <= i < |q.ring| ==> fresh(q.ring[i])
      invariant q.Contents() == Bare(After(ops[..k]).queue) && popped == Bare(After(ops[..k]).popped)
    {
      AfterOneMore(ops, k);
      var more := Perform(q, ops[k], After(ops[..k]));
      popped := popped + more;
      k := k + 1;
    }
    assert ops[..k] == ops;
  }
}
