/** The logger's growing array list. An empty slot is a NULL pointer. */
module ArrayList {
  import opened Options

  const DEFAULT_SIZE := 32

  /** Everything before k is not greater than x, and what is at k is. */
  ghost predicate InsertsAt<T>(s: seq<T>, gt: (T, T) -> bool, x: T, k: int) {
    && 0 <= k <= |s|
    && (forall i :: 0 <= i < k ==> !gt(s[i], x))
    && (k < |s| ==> gt(s[k], x))
  }

  ghost predicate Ascending<T>(s: seq<T>, gt: (T, T) -> bool) {
    forall i, j :: 0 <= i < j < |s| ==> !gt(s[i], s[j])
  }

  ghost predicate WeakOrder<T(!new)>(gt: (T, T) -> bool) {
    && (forall x, y :: gt(x, y) ==> !gt(y, x))
    && (forall x, y, z :: !gt(x, y) && !gt(y, z) ==> !gt(x, z))
  }

  function Inserted<T>(s: seq<T>, k: nat, x: T): seq<T>
    requires k <= |s|
  {
    s[..k] + [x] + s[k..]
  }

  /** A sorted list stays sorted, and the new item comes after all items that are equal to it. */
  lemma InsertKeepsOrder<T(!new)>(s: seq<T>, gt: (T, T) -> bool, x: T, k: nat)
    requires WeakOrder(gt) && Ascending(s, gt) && InsertsAt(s, gt, x, k)
    ensures Ascending(Inserted(s, k, x), gt)
    ensures forall i :: k <= i < |s| ==> gt(s[i], x)
    ensures multiset(Inserted(s, k, x)) == multiset(s) + multiset{x}
  {
    assert s == s[..k] + s[k..];
    forall i | k <= i < |s| ensures gt(s[i], x) {
      if k < i {
        assert !gt(s[k], s[i]);
      }
    }
  }

  class List<T> {
    var slots: array<Option<T>>
    var len: nat

    ghost predicate Valid()
      reads this, slots
    {
      && 1 <= slots.Length && len <= slots.Length
      && forall i :: len <= i < slots.Length ==> slots[i].None?
    }

    ghost function Contents(): seq<Option<T>>
      reads this, slots
      requires Valid()
    {
      slots[..len]
    }

    /** No slot in use is empty. */
    ghost predicate Full()
      reads this, slots
      requires Valid()
    {
      forall i :: 0 <= i < len ==> slots[i].Some?
    }

    ghost function Items(): (s: seq<T>)
      reads this, slots
      requires Valid() && Full()
      ensures |s| == len && forall i :: 0 <= i < len ==> slots[i] == Some(s[i])
    {
      seq(len, i requires 0 <= i < len <= slots.Length && slots[i].Some? reads this, slots => slots[i].value)
    }

    constructor ()
      ensures Valid() && Full() && Items() == [] && slots.Length == DEFAULT_SIZE && fresh(slots)
    {
      slots := new Option<T>[DEFAULT_SIZE](_ => None);
      len := 0;
    }

    /** zc_arraylist_expand_inner */
    method Expand(max: nat)
      requires Valid()
      modifies this`slots
      ensures Valid() && fresh(slots) && Contents() == old(Contents())
      ensures slots.Length == if 2 * old(slots.Length) >= max then 2 * old(slots.Length) else max
    {
      var size := if 2 * slots.Length >= max then 2 * slots.Length else max;
      var bigger := new Option<T>[size](_ => None);
      forall i | 0 <= i < slots.Length {
        bigger[i] := slots[i];
      }
      slots := bigger;
    }

    /** zc_arraylist_set: slots between the old end and idx stay empty. */
    method Set(idx: nat, data: T)
      requires Valid() && idx < 2 * slots.Length
      modifies this, slots
      ensures Valid() && (slots == old(slots) || fresh(slots))
      ensures Contents() == if idx < old(len) then old(Contents())[idx := Some(data)]
                            else old(Contents()) + seq(idx - old(len), _ => None) + [Some(data)]
    {
      if idx > slots.Length - 1 {
        Expand(idx);
      }
      slots[idx] := Some(data);
      if len <= idx {
        len := idx + 1;
      }
    }

    /** zc_arraylist_add */
    method Add(data: T)
      requires Valid()
      modifies this, slots
      ensures Valid() && (slots == old(slots) || fresh(slots))
      ensures Contents() == old(Contents()) + [Some(data)]
    {
      Set(len, data);
    }

    /** zc_arraylist_insert_inner: an empty slot is filled, nothing moves then. */
    method InsertInner(idx: nat, data: T)
      requires Valid() && idx < len
      modifies this, slots
      ensures Valid() && (slots == old(slots) || fresh(slots))
      ensures Contents() == if old(slots[idx]).None? then old(Contents())[idx := Some(data)]
                            else Inserted(old(Contents()), idx, Some(data))
    {
      if slots[idx].None? {
        slots[idx] := Some(data);
        return;
      }
      if len > slots.Length - 1 {
        Expand(0);
      }
      ShiftIn(idx, data);
    }

    method ShiftIn(idx: nat, data: T)
      requires Valid() && idx < len < slots.Length
      modifies this`len, slots
      ensures Valid() && Contents() == Inserted(old(Contents()), idx, Some(data))
    {
      MoveUp(idx);
      slots[idx] := Some(data);
      len := len + 1;
    }

    /** The memmove of everything from idx on by one slot. */
    method MoveUp(idx: nat)
      requires idx < len < slots.Length
      modifies slots
      ensures forall i :: 0 <= i < slots.Length ==> slots[i] == old(if idx < i <= len then slots[i - 1] else slots[i])
    {
      forall i | idx + 1 <= i <= len {
        slots[i] := slots[i - 1];
      }
    }

    /** zc_arraylist_sortadd */
    method SortAdd(gt: (T, T) -> bool, data: T) returns (ghost k: nat)
      requires Valid() && Full()
      modifies this, slots
      ensures Valid() && Full() && (slots == old(slots) || fresh(slots))
      ensures InsertsAt(old(Items()), gt, data, k)
      ensures Items() == Inserted(old(Items()), k, data)
    {
      ghost var was := Items();
      var i := 0;
      while i < len
        invariant 0 <= i <= len
        invariant forall j :: 0 <= j < i ==> !gt(was[j], data)
      {
        if gt(slots[i].value, data) {
          break;
        }
        i := i + 1;
      }
      k := i;
      ghost var before := Contents();
      PutAt(i, data);
      assert forall j :: 0 <= j < len ==> slots[j] == Contents()[j] == Inserted(before, i, Some(data))[j];
    }

    /** The end of the sorted insertion: behind the last item, or in front of the one at i. */
    method PutAt(i: nat, data: T)
      requires Valid() && i <= len && (i < len ==> slots[i].Some?)
      modifies this, slots
      ensures Valid() && (slots == old(slots) || fresh(slots))
      ensures Contents() == Inserted(old(Contents()), i, Some(data))
    {
      if i == len {
        Add(data);
      } else {
        InsertInner(i, data);
      }
    }
  }
}
