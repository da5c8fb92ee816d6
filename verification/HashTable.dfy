/** The logger's chained hash table: doubly linked buckets, refining a finite map. */
module HashTable {

  class Entry<K, V> {
    const hashKey: nat
    var key: K
    var value: V
    var prev: Entry?<K, V>
    var next: Entry?<K, V>

    constructor (hashKey: nat, key: K, value: V)
      ensures this.hashKey == hashKey && this.key == key && this.value == value
      ensures prev == null && next == null
    {
      this.hashKey, this.key, this.value := hashKey, key, value;
      prev, next := null, null;
    }
  }

  /** The bucket of a hash among n: its remainder, by repeated subtraction. */
  ghost function Slot(h: nat, n: nat): (i: nat)
    requires n > 0
    ensures i < n
  {
    if h < n then h else Slot(h - n, n)
  }

  lemma {:induction false} SlotIsRemainder(h: nat, n: nat)
    requires n > 0
    ensures Slot(h, n) == h % n
  {
    if h >= n {
      SlotIsRemainder(h - n, n);
      assert h % n == (h - n) % n by { Remainder(h, n); }
    }
  }

  lemma Remainder(h: nat, n: nat)
    requires 0 < n <= h
    ensures h % n == (h - n) % n
  {
    var q, r := (h - n) / n, (h - n) % n;
    assert h == (q + 1) * n + r;
    QuotientIsUnique(h, n, q + 1, r, h / n, h % n);
  }

  lemma QuotientIsUnique(h: nat, n: nat, q: int, r: int, q': int, r': int)
    requires 0 <= r < n && 0 <= r' < n
    requires h == q * n + r == q' * n + r'
    ensures q == q' && r == r'
  {
    Distribute(q' - q, q, n);
    if q < q' {
      AtLeastOnce(q' - q, n);
    } else if q' < q {
      AtLeastOnce(q - q', n);
    }
  }

  lemma Distribute(d: int, q: int, n: int)
    ensures (d + q) * n == d * n + q * n
    ensures -d * n == -(d * n)
  {
  }

  lemma AtLeastOnce(d: int, n: nat)
    requires d >= 1
    ensures d * n >= n
  {
    assert (d - 1) * n >= 0;
  }

  /** b is the list that starts at head, linked in both directions. */
  ghost predicate Chain<K, V>(head: Entry?<K, V>, b: seq<Entry<K, V>>)
    reads b`next, b`prev
  {
    && head == (if b == [] then null else b[0])
    && (forall k {:trigger b[k].next} :: 0 <= k < |b| - 1 ==> b[k].next == b[k + 1])
    && (forall k {:trigger b[k].prev} :: 1 <= k < |b| ==> b[k].prev == b[k - 1])
    && (b != [] ==> b[|b| - 1].next == null && b[0].prev == null)
  }

  /** The entries of bucket i of n belong there by their hash; no entry occurs twice. */
  ghost predicate Placed<K, V>(b: seq<Entry<K, V>>, i: nat, n: nat)
    requires n > 0
  {
    && (forall k :: 0 <= k < |b| ==> Slot(b[k].hashKey, n) == i)
    && (forall k, m :: 0 <= k < m < |b| ==> b[k] != b[m])
  }

  ghost predicate InBucket<K, V>(buckets: seq<seq<Entry<K, V>>>, e: Entry<K, V>)
    requires |buckets| > 0
  {
    e in buckets[Slot(e.hashKey, |buckets|)]
  }

  /** The lists are made of exactly these entries, every one in the bucket of its hash. */
  ghost predicate Members<K, V>(buckets: seq<seq<Entry<K, V>>>, entries: set<Entry<K, V>>)
  {
    && |buckets| > 0
    && (forall i, k :: 0 <= i < |buckets| && 0 <= k < |buckets[i]| ==> buckets[i][k] in entries)
    && (forall i :: 0 <= i < |buckets| ==> Placed(buckets[i], i, |buckets|))
    && (forall e {:trigger InBucket(buckets, e)} :: e in entries ==> InBucket(buckets, e))
  }

  /** A bucket array and the lists of its buckets. */
  ghost predicate Linked<K, V>(tab: array<Entry?<K, V>>, buckets: seq<seq<Entry<K, V>>>, entries: set<Entry<K, V>>)
    reads tab, entries`next, entries`prev
  {
    && tab.Length == |buckets|
    && Members(buckets, entries)
    && forall i :: 0 <= i < |buckets| ==> Chain(tab[i], buckets[i])
  }

  lemma MembersPush<K, V>(buckets: seq<seq<Entry<K, V>>>, entries: set<Entry<K, V>>, p: Entry<K, V>)
    requires Members(buckets, entries) && p !in entries
    ensures var j := Slot(p.hashKey, |buckets|); Members(buckets[j := [p] + buckets[j]], entries + {p})
  {
    var j := Slot(p.hashKey, |buckets|);
    var now := buckets[j := [p] + buckets[j]];
    assert Placed(now[j], j, |now|) by {
      assert Placed(buckets[j], j, |buckets|);
    }
    forall i | 0 <= i < |now| ensures Placed(now[i], i, |now|) {
      assert Placed(buckets[i], i, |buckets|);
    }
    forall e | e in entries + {p} ensures InBucket(now, e) {
      assert e != p ==> InBucket(buckets, e);
      assert e == p ==> now[j][0] == e;
    }
  }

  lemma MembersDrop<K, V>(buckets: seq<seq<Entry<K, V>>>, entries: set<Entry<K, V>>, j: nat, m: nat)
    requires Members(buckets, entries) && j < |buckets| && m < |buckets[j]|
    ensures Members(buckets[j := buckets[j][..m] + buckets[j][m + 1..]], entries - {buckets[j][m]})
  {
    var b, p := buckets[j], buckets[j][m];
    var c := b[..m] + b[m + 1..];
    var now := buckets[j := c];
    assert Placed(b, j, |buckets|);
    assert forall k :: 0 <= k < |c| ==> c[k] == if k < m then b[k] else b[k + 1];
    forall i, k | 0 <= i < |buckets| && i != j && 0 <= k < |buckets[i]|
      ensures buckets[i][k] != p
    {
      assert Placed(buckets[i], i, |buckets|);
    }
    forall e | e in entries - {p}
      ensures InBucket(now, e)
    {
      assert InBucket(buckets, e);
      if Slot(e.hashKey, |buckets|) == j {
        var k :| 0 <= k < |b| && b[k] == e;
        assert e == c[if k < m then k else k - 1];
      }
    }
  }

  /** An entry linked in front of one list. */
  method LinkFront<K, V>(head: Entry?<K, V>, p: Entry<K, V>, ghost b: seq<Entry<K, V>>)
    requires Chain(head, b) && p !in b
    requires forall k, m :: 0 <= k < m < |b| ==> b[k] != b[m]
    modifies p`next, p`prev, (if head == null then {} else {head})`prev
    ensures Chain(p, [p] + b)
  {
    p.next := null;
    p.prev := null;
    if head != null {
      head.prev := p;
      p.next := head;
    }
    ghost var c := [p] + b;
    forall k | 0 <= k < |c| - 1
      ensures c[k].next == c[k + 1]
    {
      assert k > 0 ==> old(b[k - 1].next) == b[k];
    }
    forall k | 1 <= k < |c|
      ensures c[k].prev == c[k - 1]
    {
      assert k > 1 ==> old(b[k - 1].prev) == b[k - 2];
    }
  }

  /** An entry put in front of its bucket, with all four links set. */
  method PushFront<K, V>(tab: array<Entry?<K, V>>, p: Entry<K, V>, ghost buckets: seq<seq<Entry<K, V>>>,
                         ghost entries: set<Entry<K, V>>)
    returns (ghost nb: seq<seq<Entry<K, V>>>)
    requires Linked(tab, buckets, entries) && p !in entries
    modifies tab, p`next, p`prev, entries`prev
    ensures var j := Slot(p.hashKey, |buckets|); nb == buckets[j := [p] + buckets[j]]
    ensures Linked(tab, nb, entries + {p})
  {
    var j := p.hashKey % tab.Length;
    SlotIsRemainder(p.hashKey, tab.Length);
    ghost var b := buckets[j];
    assert Chain(tab[j], b) && Placed(b, j, |buckets|);
    LinkFront(tab[j], p, b);
    forall i | 0 <= i < |buckets| && i != j
      ensures Chain(tab[i], buckets[i])
    {
      assert old(Chain(tab[i], buckets[i])) && Placed(buckets[i], i, |buckets|);
      assert p !in buckets[i] && tab[j] !in buckets[i];
    }
    tab[j] := p;
    MembersPush(buckets, entries, p);
    nb := buckets[j := [p] + b];
  }

  /** An entry taken out of its list, between the two neighbours it names; the new head is returned. */
  method UnlinkIn<K, V>(head: Entry?<K, V>, p: Entry<K, V>, ghost b: seq<Entry<K, V>>, ghost m: nat)
    returns (head': Entry?<K, V>)
    requires Chain(head, b) && m < |b| && b[m] == p
    requires forall k, l :: 0 <= k < l < |b| ==> b[k] != b[l]
    modifies b`next, b`prev
    ensures Chain(head', b[..m] + b[m + 1..])
  {
    ghost var c := b[..m] + b[m + 1..];
    assert forall k :: 0 <= k < |c| ==> c[k] == if k < m then b[k] else b[k + 1];
    head' := head;
    if p.next != null {
      p.next.prev := p.prev;
    }
    if p.prev != null {
      p.prev.next := p.next;
    } else {
      head' := p.next;
    }
  }

  /** An entry taken out of its bucket. */
  method Unlink<K, V>(tab: array<Entry?<K, V>>, p: Entry<K, V>, ghost buckets: seq<seq<Entry<K, V>>>,
                      ghost entries: set<Entry<K, V>>)
    returns (ghost nb: seq<seq<Entry<K, V>>>)
    requires Linked(tab, buckets, entries) && p in entries
    modifies tab, entries`next, entries`prev
    ensures Linked(tab, nb, entries - {p})
  {
    var j := p.hashKey % tab.Length;
    SlotIsRemainder(p.hashKey, tab.Length);
    assert InBucket(buckets, p);
    ghost var b := buckets[j];
    ghost var m :| 0 <= m < |b| && b[m] == p;
    assert Chain(tab[j], b) && Placed(b, j, |buckets|);
    var head := UnlinkIn(tab[j], p, b, m);
    forall i | 0 <= i < |buckets| && i != j
      ensures Chain(tab[i], buckets[i])
    {
      assert old(Chain(tab[i], buckets[i])) && Placed(buckets[i], i, |buckets|);
      assert forall k :: 0 <= k < |buckets[i]| ==> buckets[i][k] !in b;
    }
    tab[j] := head;
    MembersDrop(buckets, entries, j, m);
    nb := buckets[j := b[..m] + b[m + 1..]];
  }

  ghost function Elems<T>(s: seq<T>): (r: set<T>)
    ensures forall x :: x in s ==> x in r
    ensures forall x :: x in r ==> x in s
  {
    set x | x in s
  }

  /** The entries of the first n buckets. */
  ghost function Held<K, V>(buckets: seq<seq<Entry<K, V>>>, n: nat): set<Entry<K, V>>
    requires n <= |buckets|
  {
    if n == 0 then {} else Held(buckets, n - 1) + Elems(buckets[n - 1])
  }

  lemma {:induction false} HeldBySlot<K, V>(buckets: seq<seq<Entry<K, V>>>, entries: set<Entry<K, V>>, n: nat)
    requires Members(buckets, entries) && n <= |buckets|
    ensures Held(buckets, n) == set e | e in entries && Slot(e.hashKey, |buckets|) < n
  {
    if n > 0 {
      HeldBySlot(buckets, entries, n - 1);
      var b := buckets[n - 1];
      assert Placed(b, n - 1, |buckets|);
      forall e | e in entries && Slot(e.hashKey, |buckets|) == n - 1
        ensures e in Elems(b)
      {
        assert InBucket(buckets, e);
      }
    }
  }

  /** The links that the walk over the rest of an old bucket still needs. */
  ghost predicate Walkable<K, V>(p: Entry?<K, V>, b: seq<Entry<K, V>>)
    reads b`next
  {
    if b == [] then p == null else p == b[0] && Walkable(b[0].next, b[1..])
  }

  lemma {:induction false} ChainIsWalkable<K, V>(head: Entry?<K, V>, b: seq<Entry<K, V>>, k: nat)
    requires Chain(head, b) && k <= |b|
    ensures Walkable(if k < |b| then b[k] else null, b[k..])
    decreases |b| - k
  {
    if k < |b| {
      ChainIsWalkable(head, b, k + 1);
      assert b[k..][1..] == b[k + 1..];
    }
  }

  /** all is what was moved and, without repetition, what is left. */
  ghost predicate Divides<T>(moved: set<T>, rest: seq<T>, all: set<T>)
  {
    && (forall k, m :: 0 <= k < m < |rest| ==> rest[k] != rest[m])
    && moved !! Elems(rest)
    && moved + Elems(rest) == all
  }

  lemma DividesStep<T>(moved: set<T>, rest: seq<T>, all: set<T>)
    requires Divides(moved, rest, all) && rest != []
    ensures rest[0] !in moved && rest[0] in all && moved <= all
    ensures Divides(moved + {rest[0]}, rest[1..], all)
  {
    assert Elems(rest) == {rest[0]} + Elems(rest[1..]) && rest[0] !in rest[1..];
  }

  /** The entries of one old bucket moved, one after the other, to the front of their new buckets. */
  method MoveBucket<K, V>(head: Entry?<K, V>, ghost b: seq<Entry<K, V>>, tab: array<Entry?<K, V>>,
                          ghost buckets: seq<seq<Entry<K, V>>>, ghost done: set<Entry<K, V>>,
                          ghost all: set<Entry<K, V>>)
    returns (ghost buckets': seq<seq<Entry<K, V>>>)
    requires Walkable(head, b) && Divides(done, b, all)
    requires Linked(tab, buckets, done)
    modifies tab, all`next, all`prev
    ensures |buckets'| == |buckets| && Linked(tab, buckets', all)
  {
    buckets' := buckets;
    var p := head;
    ghost var rest, moved: set<Entry<K, V>> := b, done;
    while p != null
      invariant Walkable(p, rest) && Divides(moved, rest, all)
      invariant |buckets'| == |buckets| && Linked(tab, buckets', moved)
      decreases |rest|
    {
      var q := p.next;
      DividesStep(moved, rest, all);
      buckets' := PushFront(tab, p, buckets', moved);
      rest, moved := rest[1..], moved + {p};
      p := q;
    }
    assert moved == all;
  }

  /** Bucket i splits off from what is held before it, and later buckets stay apart. */
  lemma HeldNext<K, V>(buckets: seq<seq<Entry<K, V>>>, entries: set<Entry<K, V>>, i: nat)
    requires Members(buckets, entries) && i < |buckets|
    ensures Divides(Held(buckets, i), buckets[i], Held(buckets, i + 1))
    ensures Held(buckets, i + 1) <= entries
    ensures forall j, e :: i < j < |buckets| && e in buckets[j] ==> e !in Held(buckets, i + 1)
  {
    HeldBySlot(buckets, entries, i);
    HeldBySlot(buckets, entries, i + 1);
    assert Placed(buckets[i], i, |buckets|);
    forall j, e | i < j < |buckets| && e in buckets[j]
      ensures e !in Held(buckets, i + 1)
    {
      assert Placed(buckets[j], j, |buckets|);
    }
  }

  /** Bucket i moved: the entries of the first i + 1 buckets are in the new ones. */
  method MoveNext<K, V>(tab: array<Entry?<K, V>>, ghost buckets: seq<seq<Entry<K, V>>>, ghost entries: set<Entry<K, V>>,
                        newTab: array<Entry?<K, V>>, ghost nb: seq<seq<Entry<K, V>>>, i: nat,
                        ghost done: set<Entry<K, V>>, ghost all: set<Entry<K, V>>)
    returns (ghost nb': seq<seq<Entry<K, V>>>)
    requires i < tab.Length == |buckets| && tab != newTab
    requires Divides(done, buckets[i], all) && all <= entries
    requires forall j, e :: i < j < |buckets| && e in buckets[j] ==> e !in all
    requires forall j :: i <= j < |buckets| ==> Chain(tab[j], buckets[j])
    requires Linked(newTab, nb, done)
    modifies newTab, entries`next, entries`prev
    ensures |nb'| == |nb| && Linked(newTab, nb', all)
    ensures forall j :: i < j < |buckets| ==> Chain(tab[j], buckets[j])
  {
    ChainIsWalkable(tab[i], buckets[i], 0);
    nb' := MoveBucket(tab[i], buckets[i], newTab, nb, done, all);
    forall j | i < j < |buckets|
      ensures Chain(tab[j], buckets[j])
    {
      assert forall e :: e in buckets[j] ==> e !in all;
    }
  }

  /** The loop over the old buckets. */
  method MoveAll<K, V>(tab: array<Entry?<K, V>>, ghost buckets: seq<seq<Entry<K, V>>>, ghost entries: set<Entry<K, V>>,
                       newTab: array<Entry?<K, V>>)
    returns (ghost nb: seq<seq<Entry<K, V>>>)
    requires Linked(tab, buckets, entries) && tab != newTab
    requires newTab.Length > 0 && forall i :: 0 <= i < newTab.Length ==> newTab[i] == null
    modifies newTab, entries`next, entries`prev
    ensures |nb| == newTab.Length && Linked(newTab, nb, entries)
  {
    nb := seq(newTab.Length, _ => []);
    var i := 0;
    ghost var done := {};
    while i < tab.Length
      invariant 0 <= i <= tab.Length && |nb| == newTab.Length && done == Held(buckets, i)
      invariant Linked(newTab, nb, done)
      invariant forall j :: i <= j < |buckets| ==> Chain(tab[j], buckets[j])
    {
      HeldNext(buckets, entries, i);
      ghost var all := Held(buckets, i + 1);
      nb := MoveNext(tab, buckets, entries, newTab, nb, i, done, all);
      done := all;
      i := i + 1;
    }
    HeldBySlot(buckets, entries, |buckets|);
    assert done == entries;
  }

  /** The entries of the buckets from i on, in iteration order. */
  ghost function Flat<K, V>(buckets: seq<seq<Entry<K, V>>>, i: nat): seq<Entry<K, V>>
    requires i <= |buckets|
    decreases |buckets| - i
  {
    if i == |buckets| then [] else buckets[i] + Flat(buckets, i + 1)
  }

  /** The bucket and the position of the k-th entry, and what comes after it. */
  lemma {:induction false} Locate<K, V>(buckets: seq<seq<Entry<K, V>>>, from: nat, k: nat) returns (i: nat, m: nat)
    requires from <= |buckets| && k < |Flat(buckets, from)|
    ensures from <= i < |buckets| && m < |buckets[i]| && buckets[i][m] == Flat(buckets, from)[k]
    ensures Flat(buckets, from)[k + 1..] == buckets[i][m + 1..] + Flat(buckets, i + 1)
    decreases |buckets| - from
  {
    var b := buckets[from];
    if k < |b| {
      i, m := from, k;
    } else {
      i, m := Locate(buckets, from + 1, k - |b|);
      assert Flat(buckets, from)[k + 1..] == Flat(buckets, from + 1)[k - |b| + 1..];
    }
  }

  /** Iteration meets every entry, and none twice. */
  lemma {:induction false} FlatOnce<K, V>(buckets: seq<seq<Entry<K, V>>>, entries: set<Entry<K, V>>, i: nat)
    requires Members(buckets, entries) && i <= |buckets|
    ensures Elems(Flat(buckets, i)) == set e | e in entries && Slot(e.hashKey, |buckets|) >= i
    ensures |Elems(Flat(buckets, i))| == |Flat(buckets, i)|
    decreases |buckets| - i
  {
    if i < |buckets| {
      FlatOnce(buckets, entries, i + 1);
      var b, rest := buckets[i], Flat(buckets, i + 1);
      assert Placed(b, i, |buckets|);
      ElemsCount(b);
      assert Elems(b + rest) == Elems(b) + Elems(rest);
      forall e | e in entries && Slot(e.hashKey, |buckets|) == i
        ensures e in Elems(b)
      {
        assert InBucket(buckets, e);
      }
      assert Elems(b) !! Elems(rest);
    } else {
      assert Elems(Flat(buckets, i)) == {};
    }
  }

  lemma {:induction false} ElemsCount<T>(s: seq<T>)
    requires forall k, m :: 0 <= k < m < |s| ==> s[k] != s[m]
    ensures |Elems(s)| == |s|
  {
    if s != [] {
      var n := |s| - 1;
      ElemsCount(s[..n]);
      assert Elems(s) == Elems(s[..n]) + {s[n]};
      assert s[n] !in s[..n];
    }
  }

  lemma {:induction false} FlatSkipsEmpty<K, V>(buckets: seq<seq<Entry<K, V>>>, i: nat, j: nat)
    requires i <= j <= |buckets| && forall m :: i <= m < j ==> buckets[m] == []
    ensures Flat(buckets, i) == Flat(buckets, j)
    decreases j - i
  {
    if i < j {
      FlatSkipsEmpty(buckets, i + 1, j);
      assert [] + Flat(buckets, i + 1) == Flat(buckets, i + 1);
    }
  }

  /** The cached hash is that of the key. */
  ghost predicate Hashed<K, V>(hash: K -> nat, e: Entry<K, V>)
    reads e`key
  {
    e.hashKey == hash(e.key)
  }

  /** The entries and their keys determine each other, and the cached hashes are right. */
  ghost predicate Indexed<K, V>(hash: K -> nat, entries: set<Entry<K, V>>, index: map<K, Entry<K, V>>)
    reads entries`key
  {
    && (forall e {:trigger Hashed(hash, e)} :: e in entries ==> Hashed(hash, e))
    && (forall e :: e in entries ==> e.key in index && index[e.key] == e)
    && (forall k :: k in index ==> index[k] in entries && index[k].key == k)
  }

  ghost function ModelOf<K, V>(index: map<K, Entry<K, V>>): map<K, V>
    reads index.Values`value
  {
    map k | k in index :: index[k].value
  }

  lemma ModelAdd<K, V>(index: map<K, Entry<K, V>>, p: Entry<K, V>)
    ensures ModelOf(index[p.key := p]) == ModelOf(index)[p.key := p.value]
  {
  }

  lemma ModelDrop<K, V>(index: map<K, Entry<K, V>>, key: K)
    ensures ModelOf(index - {key}) == map k | k in ModelOf(index) && k != key :: ModelOf(index)[k]
  {
  }

  lemma IndexedAdd<K, V>(hash: K -> nat, entries: set<Entry<K, V>>, index: map<K, Entry<K, V>>, p: Entry<K, V>)
    requires Indexed(hash, entries, index) && p.key !in index && p.hashKey == hash(p.key)
    ensures Indexed(hash, entries + {p}, index[p.key := p])
    ensures |index[p.key := p]| == |index| + 1
  {
  }

  lemma IndexedDrop<K, V>(hash: K -> nat, entries: set<Entry<K, V>>, index: map<K, Entry<K, V>>, key: K)
    requires Indexed(hash, entries, index) && key in index
    ensures Indexed(hash, entries - {index[key]}, index - {key})
    ensures |index - {key}| == |index| - 1
  {
    assert (index - {key}).Keys == index.Keys - {key};
    assert |index.Keys - {key}| == |index| - 1;
  }

  lemma {:induction false} Bijection<K, V>(hash: K -> nat, entries: set<Entry<K, V>>, index: map<K, Entry<K, V>>)
    requires Indexed(hash, entries, index)
    ensures |entries| == |index|
    decreases |index|
  {
    assert forall e :: e in entries ==> e.key in index;
    if index == map[] {
      assert entries == {};
    } else {
      var k :| k in index;
      IndexedDrop(hash, entries, index, k);
      Bijection(hash, entries - {index[k]}, index - {k});
    }
  }

  class Table<K(==), V> {
    const hash: K -> nat
    var nelem: nat
    var tab: array<Entry?<K, V>>
    var tabSize: nat

    ghost var buckets: seq<seq<Entry<K, V>>>
    ghost var entries: set<Entry<K, V>>
    ghost var index: map<K, Entry<K, V>>  // the entry of every key

    ghost predicate Valid()
      reads this, tab, entries
    {
      && tabSize == tab.Length
      && Linked(tab, buckets, entries)
      && Indexed(hash, entries, index)
      && nelem == |index|
      && 10 * nelem <= 13 * tabSize + 10
    }

    /** The map the table stands for. */
    ghost function Model(): map<K, V>
      requires Valid()
      reads this, tab, entries
    {
      ModelOf(index)
    }

    constructor (size: nat, hash: K -> nat)
      requires size > 0
      ensures Valid() && Model() == map[] && tabSize == size && this.hash == hash
      ensures fresh(tab) && entries == {}
    {
      this.hash := hash;
      nelem, tabSize := 0, size;
      tab := new Entry?<K, V>[size](_ => null);
      buckets := seq(size, _ => []);
      entries, index := {}, map[];
    }

    /** The walk along one bucket. */
    method Find(key: K) returns (p: Entry?<K, V>)
      requires Valid()
      ensures p == if key in index then index[key] else null
    {
      var i := hash(key) % tabSize;
      SlotIsRemainder(hash(key), tabSize);
      ghost var b := buckets[i];
      assert Chain(tab[i], b);
      if key in index {
        assert InBucket(buckets, index[key]) && Hashed(hash, index[key]);
      }
      ghost var k := 0;
      p := tab[i];
      while p != null && p.key != key
        invariant 0 <= k <= |b|
        invariant p == if k < |b| then b[k] else null
        invariant forall m :: 0 <= m < k ==> b[m].key != key
        decreases |b| - k
      {
        p := p.next;
        k := k + 1;
      }
    }

    method Get(key: K) returns (value: Result<V>)
      requires Valid()
      ensures value == if key in Model() then Found(Model()[key]) else Absent
    {
      var p := Find(key);
      value := if p == null then Absent else Found(p.value);
    }

    /** A value under a key; a table above 1.3 entries a bucket is enlarged before it takes a new key. */
    method Put(key: K, value: V)
      requires Valid()
      modifies this, tab, entries
      ensures Valid() && Model() == old(Model())[key := value]
      ensures fresh(entries - old(entries)) && (tab == old(tab) || fresh(tab))
    {
      var p := Find(key);
      if p != null {
        Replace(p, key, value);
        return;
      }
      if 10 * nelem > 13 * tabSize {
        Rehash();
      }
      p := new Entry(hash(key), key, value);
      Insert(p);
    }

    method Replace(p: Entry<K, V>, key: K, value: V)
      requires Valid() && key in index && index[key] == p
      modifies p`key, p`value
      ensures Valid() && Model() == old(Model())[key := value]
    {
      p.key := key;
      p.value := value;
    }

    method Insert(p: Entry<K, V>)
      requires Valid() && p !in entries && p.key !in index && p.hashKey == hash(p.key)
      requires 10 * nelem <= 13 * tabSize
      modifies this`nelem, this`buckets, this`entries, this`index, tab, p`next, p`prev, entries`prev
      ensures Valid() && entries == old(entries) + {p} && tab == old(tab)
      ensures Model() == old(Model())[p.key := p.value]
    {
      IndexedAdd(hash, entries, index, p);
      ModelAdd(index, p);
      ghost var before, held := buckets, entries;
      ghost var slot := Slot(p.hashKey, |before|);
      buckets := before[slot := [p] + before[slot]];
      entries := held + {p};
      index := index[p.key := p];
      nelem := nelem + 1;
      assert Linked(tab, before, held);
      ghost var nb := PushFront(tab, p, before, held);
    }

    method Remove(key: K)
      requires Valid()
      modifies this`nelem, this`buckets, this`entries, this`index, tab, entries`next, entries`prev
      ensures Valid() && entries <= old(entries) && tab == old(tab)
      ensures Model() == map k | k in old(Model()) && k != key :: old(Model())[k]
    {
      var p := Find(key);
      if p != null {
        Take(p, key);
      }
    }

    method Take(p: Entry<K, V>, key: K)
      requires Valid() && key in index && index[key] == p
      modifies this`nelem, this`buckets, this`entries, this`index, tab, entries`next, entries`prev
      ensures Valid() && entries == old(entries) - {p} && tab == old(tab)
      ensures Model() == map k | k in old(Model()) && k != key :: old(Model())[k]
    {
      IndexedDrop(hash, entries, index, key);
      ModelDrop(index, key);
      Detach(p, key);
      nelem := nelem - 1;
    }

    method Detach(p: Entry<K, V>, key: K)
      requires Linked(tab, buckets, entries) && key in index && index[key] == p && p in entries
      modifies this`buckets, this`entries, this`index, tab, entries`next, entries`prev
      ensures Linked(tab, buckets, entries) && entries == old(entries) - {p} && index == old(index) - {key}
      ensures ModelOf(index) == old(ModelOf(index - {key}))
    {
      ghost var nb := Unlink(tab, p, buckets, entries);
      buckets, entries, index := nb, entries - {p}, index - {key};
    }

    method Clean()
      requires Valid()
      modifies this`nelem, this`buckets, this`entries, this`index, tab
      ensures Valid() && Model() == map[] && entries == {}
    {
      var i := 0;
      while i < tabSize
        invariant 0 <= i <= tabSize
        invariant forall j :: 0 <= j < i ==> tab[j] == null
        modifies tab
      {
        tab[i] := null;
        i := i + 1;
      }
      buckets := seq(tabSize, _ => []);
      entries, index, nelem := {}, map[], 0;
    }

    /** The first entry of the first bucket, from i on, that is not empty. */
    method FirstFrom(i: nat) returns (p: Entry?<K, V>)
      requires Valid() && i <= tabSize
      ensures var order := Flat(buckets, i); p == if order == [] then null else order[0]
    {
      var j := i;
      while j < tabSize
        invariant i <= j <= tabSize
        invariant forall m :: i <= m < j ==> buckets[m] == []
      {
        assert Chain(tab[j], buckets[j]);
        if tab[j] != null {
          FlatSkipsEmpty(buckets, i, j);
          return tab[j];
        }
        j := j + 1;
      }
      FlatSkipsEmpty(buckets, i, j);
      p := null;
    }

    method Begin() returns (p: Entry?<K, V>)
      requires Valid()
      ensures var order := Flat(buckets, 0); p == if order == [] then null else order[0]
    {
      p := FirstFrom(0);
    }

    /** The entry after the k-th. */
    method Next(e: Entry<K, V>, ghost k: nat) returns (p: Entry?<K, V>)
      requires Valid() && k < |Flat(buckets, 0)| && Flat(buckets, 0)[k] == e
      ensures var order := Flat(buckets, 0); p == if k + 1 < |order| then order[k + 1] else null
    {
      ghost var i, m := Locate(buckets, 0, k);
      assert Chain(tab[i], buckets[i]) && Placed(buckets[i], i, |buckets|);
      ghost var rest := Flat(buckets, 0)[k + 1..];
      if e.next != null {
        assert rest[0] == buckets[i][m + 1];
        return e.next;
      }
      var j := e.hashKey % tabSize;
      SlotIsRemainder(e.hashKey, tabSize);
      assert rest == Flat(buckets, j + 1);
      p := FirstFrom(j + 1);
    }

    /** zc_hashtable_foreach: every key of the map is visited exactly once. */
    method Foreach() returns (keys: seq<K>)
      requires Valid()
      ensures |keys| == |Model()| && forall k :: k in keys <==> k in Model()
      ensures |keys| == |Flat(buckets, 0)| && forall i :: 0 <= i < |keys| ==> keys[i] == Flat(buckets, 0)[i].key
    {
      ghost var order := Flat(buckets, 0);
      FlatOnce(buckets, entries, 0);
      ghost var visited: seq<Entry<K, V>> := [];
      keys := [];
      var p := Begin();
      while p != null
        invariant |visited| <= |order| && visited == order[..|visited|]
        invariant p == if |visited| < |order| then order[|visited|] else null
        invariant |keys| == |visited| && forall i :: 0 <= i < |keys| ==> keys[i] == visited[i].key
        decreases |order| - |visited|
      {
        keys := keys + [p.key];
        p := Next(p, |visited|);
        visited := visited + [order[|visited|]];
      }
      assert visited == order;
      VisitedKeys(order, keys);
    }

    lemma VisitedKeys(order: seq<Entry<K, V>>, keys: seq<K>)
      requires Valid() && Elems(order) == entries && |order| == |entries|
      requires |keys| == |order| && forall i :: 0 <= i < |keys| ==> keys[i] == order[i].key
      ensures |keys| == |Model()| && forall k :: k in keys <==> k in Model()
    {
      forall k | k in index
        ensures k in keys
      {
        assert index[k] in Elems(order);
        var i :| 0 <= i < |order| && order[i] == index[k];
        assert keys[i] == k;
      }
      forall k | k in keys
        ensures k in index
      {
        var i :| 0 <= i < |keys| && keys[i] == k;
        assert order[i] in entries;
      }
      Bijection(hash, entries, index);
      Load();
    }

    /** nelem is the size of the map, and never more than one above 1.3 entries a bucket. */
    lemma Load()
      requires Valid()
      ensures nelem == |Model()| && 10 * nelem <= 13 * tabSize + 10
    {
      assert Model().Keys == index.Keys;
    }

    /** Twice the buckets; every entry is relinked, none is copied. */
    method Rehash()
      requires Valid()
      modifies this`tab, this`tabSize, this`buckets, entries`next, entries`prev
      ensures Valid() && fresh(tab) && tabSize == 2 * old(tabSize)
      ensures Model() == old(Model())
    {
      var newSize := 2 * tabSize;
      var newTab := new Entry?<K, V>[newSize](_ => null);
      var oldTab := tab;
      ghost var before := buckets;
      tab := newTab;
      tabSize := newSize;
      ghost var nb := MoveAll(oldTab, before, entries, newTab);
      buckets := nb;
    }
  }

  datatype Result<V> = Absent | Found(value: V)

  // Runs.

  datatype Op<K, V> = Put(key: K, value: V) | Remove(key: K) | Clean

  function Applied<K, V>(m: map<K, V>, op: Op<K, V>): map<K, V> {
    match op
    case Put(key, value) => m[key := value]
    case Remove(key) => map k | k in m && k != key :: m[k]
    case Clean => map[]
  }

  function AllApplied<K, V>(m: map<K, V>, ops: seq<Op<K, V>>): map<K, V>
    decreases |ops|
  {
    if ops == [] then m else AllApplied(Applied(m, ops[0]), ops[1..])
  }

  method PerformOne<K(==), V>(t: Table<K, V>, op: Op<K, V>)
    requires t.Valid()
    modifies t, t.tab, t.entries
    ensures t.Valid() && t.Model() == Applied(old(t.Model()), op)
    ensures fresh(t.entries - old(t.entries)) && (t.tab == old(t.tab) || fresh(t.tab))
  {
    match op {
      case Put(key, value) => t.Put(key, value);
      case Remove(key) => t.Remove(key);
      case Clean => t.Clean();
    }
  }

  /** Over any run, rehashes included, the table stands for the map that the operations make, and stays valid. */
  method Perform<K(==), V>(t: Table<K, V>, ops: seq<Op<K, V>>)
    requires t.Valid()
    modifies t, t.tab, t.entries
    ensures t.Valid() && t.Model() == AllApplied(old(t.Model()), ops)
    decreases |ops|
  {
    if ops != [] {
      PerformOne(t, ops[0]);
      Perform(t, ops[1..]);
    }
  }
}
