/** Capacities of the growable arrays (core/posix/list.c, core/mcp/mcp_server.c). */
module Growth {

  /** Doubling from 4 until `required` fits. */
  function Grown(capacity: nat, required: nat): (c: nat)
    ensures c >= required && c >= capacity
  {
    if required <= capacity then capacity else Doubled(if capacity == 0 then 4 else 2 * capacity, required)
  }

  function Doubled(capacity: nat, required: nat): (c: nat)
    requires capacity > 0
    ensures c >= required && c >= capacity
    decreases required - capacity
  {
    if capacity >= required then capacity else Doubled(2 * capacity, required)
  }

  ghost predicate PowerOfTwo(n: nat) {
    n > 0 && (n == 1 || (n % 2 == 0 && PowerOfTwo(n / 2)))
  }

  ghost predicate SizedByDoubling(capacity: nat) {
    capacity == 0 || (capacity % 4 == 0 && PowerOfTwo(capacity / 4))
  }

  lemma {:induction false} DoubledSized(capacity: nat, required: nat)
    requires capacity > 0 && SizedByDoubling(capacity)
    ensures SizedByDoubling(Doubled(capacity, required))
    decreases required - capacity
  {
    if capacity < required {
      assert (2 * capacity) / 4 / 2 == capacity / 4 && (2 * capacity) / 4 == 2 * (capacity / 4);
      DoubledSized(2 * capacity, required);
    }
  }

  lemma GrownSized(capacity: nat, required: nat)
    requires SizedByDoubling(capacity)
    ensures SizedByDoubling(Grown(capacity, required))
  {
    if capacity < required {
      var first := if capacity == 0 then 4 else 2 * capacity;
      assert capacity > 0 ==> (2 * capacity) / 4 / 2 == capacity / 4 && (2 * capacity) / 4 == 2 * (capacity / 4);
      DoubledSized(first, required);
    }
  }

  /** The capacity is doubled no further than needed. */
  lemma {:induction false} DoubledTight(capacity: nat, required: nat)
    requires capacity > 0
    ensures Doubled(capacity, required) == capacity || Doubled(capacity, required) < 2 * required
    decreases required - capacity
  {
    if capacity < required {
      DoubledTight(2 * capacity, required);
    }
  }

  lemma GrownTight(capacity: nat, required: nat)
    ensures required <= capacity ==> Grown(capacity, required) == capacity
    ensures required > capacity ==>
              Grown(capacity, required) == (if capacity == 0 then 4 else 2 * capacity) || Grown(capacity, required) < 2 * required
  {
    if required > capacity {
      DoubledTight(if capacity == 0 then 4 else 2 * capacity, required);
    }
  }

  /** Capacity of a list and elements moved so far by reallocation. */
  datatype Cost = Cost(capacity: nat, moved: nat)

  /** One append to a list of `count` elements. */
  function Append(c: Cost, count: nat): Cost {
    Cost(Grown(c.capacity, count + 1), c.moved + if count + 1 > c.capacity then count else 0)
  }

  /** `n` appends to an empty list. */
  function Appends(n: nat): Cost {
    if n == 0 then Cost(0, 0) else Append(Appends(n - 1), n - 1)
  }

  /** Whether append `i` to an empty list reallocates. */
  predicate Reallocates(i: nat) {
    i + 1 > Appends(i).capacity
  }

  /** How many of `n` appends succeed before the first that fails, when
      `allocations` says which reallocation would succeed. */
  function Appended(allocations: nat -> bool, n: nat): (k: nat)
    ensures k <= n
  {
    if n == 0 then 0
    else
      var k := Appended(allocations, n - 1);
      if k < n - 1 || (Reallocates(n - 1) && !allocations(n - 1)) then k else n
  }

  lemma {:induction false} AppendedStops(allocations: nat -> bool, n: nat)
    ensures Appended(allocations, n) == n <==> forall i :: 0 <= i < n && Reallocates(i) ==> allocations(i)
    ensures var k := Appended(allocations, n); k < n ==> Reallocates(k) && !allocations(k)
  {
    if n > 0 {
      AppendedStops(allocations, n - 1);
    }
  }

  lemma AppendedStep(allocations: nat -> bool, i: nat)
    requires Appended(allocations, i) == i
    ensures Appended(allocations, i + 1) == if i + 1 > Appends(i).capacity && !allocations(i) then i else i + 1
  {
  }

  lemma {:induction false} FailedStays(allocations: nat -> bool, k: nat, n: nat)
    requires k < n && Appended(allocations, k + 1) == k
    ensures Appended(allocations, n) == k
  {
    if k + 1 < n {
      FailedStays(allocations, k, n - 1);
    }
  }

  /** Amortised growth: the capacity is less than twice what is needed, and n
      appends move fewer than max(4, 2n) elements altogether. */
  lemma {:induction false} AppendsAmortised(n: nat)
    ensures var c := Appends(n);
            && n <= c.capacity && SizedByDoubling(c.capacity)
            && (n > 0 ==> c.moved == c.capacity - 4 && (c.capacity == 4 || c.capacity <= 2 * (n - 1)))
    ensures Appends(n).moved < if 2 * n > 4 then 2 * n else 4
  {
    if n > 0 {
      AppendsAmortised(n - 1);
      GrownSized(Appends(n - 1).capacity, n);
    }
  }
}

/** The generic list of core/posix/list.c. */
module DynamicList {
  import opened Json
  import opened Growth

  lemma OneMore<T>(s: seq<T>, i: nat)
    requires i < |s|
    ensures s[..i] + [s[i]] == s[..i + 1]
  {
  }

  class List<T> {
    var items: array<Option<T>> // None is memory not yet written
    var count: nat
    ghost var moved: nat

    ghost predicate Valid()
      reads this, items
    {
      && count <= items.Length && SizedByDoubling(items.Length)
      && forall i :: 0 <= i < count ==> items[i].Some?
    }

    ghost function Contents(): (s: seq<T>)
      requires Valid()
      reads this, items
      ensures |s| == count
    {
      seq(count, i requires 0 <= i < count && Valid() reads this, items => items[i].value)
    }

    /** list_init. */
    constructor ()
      ensures Valid() && Contents() == [] && items.Length == 0 && moved == 0 && fresh(items)
    {
      items := new Option<T>[0](_ => None);
      count, moved := 0, 0;
    }

    /** list_reserve; the reallocation may fail. */
    method Reserve(required: nat, ok: bool) returns (done: bool)
      requires Valid()
      modifies this`items, this`moved
      ensures Valid() && Contents() == old(Contents())
      ensures done == (ok || required <= old(items.Length))
      ensures done ==> items.Length == Grown(old(items.Length), required)
      ensures moved == old(moved) + if done && required > old(items.Length) then count else 0
      ensures items == old(items) || fresh(items)
      ensures !done || required <= old(items.Length) ==> items == old(items)
    {
      if required <= items.Length {
        return true;
      }
      var newCapacity := if items.Length == 0 then 4 else items.Length * 2;
      while newCapacity < required
        invariant newCapacity > 0 && Doubled(newCapacity, required) == Grown(items.Length, required)
      {
        newCapacity := newCapacity * 2;
      }
      if !ok {
        return false;
      }
      GrownSized(items.Length, required);
      var newItems := new Option<T>[newCapacity](_ => None);
      for i := 0 to count
        invariant unchanged(this) && Valid()
        invariant forall j :: 0 <= j < i ==> newItems[j] == items[j]
      {
        newItems[i] := items[i];
      }
      items, moved := newItems, moved + count;
      return true;
    }

    /** list_add: append, or change nothing when memory runs out. */
    method Add(item: T, ok: bool) returns (added: bool)
      requires Valid()
      modifies this, items
      ensures Valid() && added == (ok || old(count) < old(items.Length))
      ensures Contents() == if added then old(Contents()) + [item] else old(Contents())
      ensures added ==> Cost(items.Length, moved) == Append(Cost(old(items.Length), old(moved)), old(count))
      ensures !added ==> items == old(items) && moved == old(moved)
      ensures items == old(items) || fresh(items)
    {
      var reserved := Reserve(count + 1, ok);
      if !reserved {
        return false;
      }
      items[count] := Some(item);
      count := count + 1;
      assert Contents() == old(Contents()) + [item];
      return true;
    }

    /** list_get. */
    method Get(index: nat) returns (r: Option<T>)
      requires Valid()
      ensures r == if index < count then Some(Contents()[index]) else None
    {
      if index >= count {
        return None;
      }
      return items[index];
    }

    /** list_clear: hands every element to the free function; the storage stays. */
    method Clear() returns (freed: seq<T>)
      requires Valid()
      modifies this`count
      ensures Valid() && Contents() == [] && freed == old(Contents())
    {
      freed := [];
      for i := 0 to count
        invariant freed == Contents()[..i]
      {
        freed := freed + [items[i].value];
      }
      count := 0;
    }

    /** list_free: hands every element to the free function, then drops the storage. */
    method Free() returns (freed: seq<T>)
      requires Valid()
      modifies this`items, this`count
      ensures Valid() && Contents() == [] && items.Length == 0 && fresh(items)
      ensures freed == old(Contents())
    {
      freed := [];
      for i := 0 to count
        invariant freed == Contents()[..i]
      {
        freed := freed + [items[i].value];
      }
      items := new Option<T>[0](_ => None);
      count := 0;
    }

    /** The copying loop of list_clone: appends the elements one by one until a
        reallocation fails. */
    method CopyInto(dst: List<T>, allocations: nat -> bool) returns (done: bool)
      requires Valid() && dst.Valid() && dst != this && dst.items != items
      requires Cost(dst.items.Length, dst.moved) == Appends(0) && dst.Contents() == []
      modifies dst, dst.items
      ensures dst.Valid() && (dst.items == old(dst.items) || fresh(dst.items))
      ensures done <==> Appended(allocations, count) == count
      ensures dst.Contents() == Contents()[..Appended(allocations, count)]
      ensures done ==> Cost(dst.items.Length, dst.moved) == Appends(count)
    {
      ghost var all := Contents();
      var i := 0;
      done := true;
      while i < count
        invariant 0 <= i <= count && dst.Valid() && (dst.items == old(dst.items) || fresh(dst.items))
        invariant dst.Contents() == all[..i]
        invariant Cost(dst.items.Length, dst.moved) == Appends(i) && Appended(allocations, i) == i
      {
        OneMore(all, i);
        AppendedStep(allocations, i);
        var item := Get(i);
        done := dst.Add(item.value, allocations(i));
        if !done {
          FailedStays(allocations, i, count);
          break;
        }
        i := i + 1;
      }
    }

    /** list_clone.  When a reallocation fails, the copies made so far are freed, in
        order, and nothing is left in the new list. */
    method Clone(allocations: nat -> bool) returns (dst: List<T>, done: bool, freed: seq<T>)
      requires Valid()
      ensures fresh(dst) && fresh(dst.items) && dst.Valid()
      ensures done <==> Appended(allocations, count) == count
      ensures done ==> dst.Contents() == Contents() && freed == []
      ensures done ==> dst.moved == Appends(count).moved && dst.items.Length == Appends(count).capacity
      ensures !done ==> dst.Contents() == [] && dst.items.Length == 0
      ensures !done ==> freed == Contents()[..Appended(allocations, count)]
    {
      dst := new List<T>();
      freed := [];
      done := CopyInto(dst, allocations);
      if !done {
        freed := dst.Free();
      }
    }
  }
}
