/** The two fixed-capacity containers behind kernel objects: a slab whose indices
    are stable, and a circular first-in first-out queue. */
module Pools {
  import opened Wrappers
  import opened KernelAbi

  /** Refines a finite map from indices to values. */
  class Pool<T> {
    const slots: array<Option<T>>

    ghost predicate Valid()
      reads this
    {
      slots.Length <= 0x1_0000
    }

    ghost function Contents(): map<nat, T>
      reads this, slots
    {
      map i: nat | i < slots.Length && slots[i].Some? :: slots[i].value
    }

    constructor (capacity: nat)
      requires capacity <= 0x1_0000
      ensures Valid() && fresh(slots) && slots.Length == capacity && Contents() == map[]
    {
      slots := new Option<T>[capacity](_ => None);
    }

    /** The least free index, or a refusal exactly when every index is taken. */
    method Alloc(value: T) returns (r: Result<nat, KernelError>)
      requires Valid()
      modifies slots
      ensures r.Err? <==> forall i: nat :: i < slots.Length ==> i in old(Contents())
      ensures r.Err? ==> r.error == OutOfHandles && Contents() == old(Contents())
      ensures r.Ok? ==>
        && r.value < slots.Length && r.value !in old(Contents())
        && (forall i: nat :: i < r.value ==> i in old(Contents()))
        && Contents() == old(Contents())[r.value := value]
    {
      var i := 0;
      while i < slots.Length
        invariant i <= slots.Length
        invariant slots[..] == old(slots[..])
        invariant forall j: nat :: j < i ==> slots[j].Some?
      {
        if slots[i].None? {
          assert i !in old(Contents());
          slots[i] := Some(value);
          assert Contents() == old(Contents())[i := value];
          return Ok(i);
        }
        i := i + 1;
      }
      return Err(OutOfHandles);
    }

    /** Gives the value back and frees its index; freeing a free index is refused. */
    method Dealloc(index: nat) returns (r: Result<T, KernelError>)
      requires Valid()
      modifies slots
      ensures r == if index in old(Contents()) then Ok(old(Contents())[index]) else Err(InvalidArgument)
      ensures Contents() == old(Contents()) - {index}
    {
      if index >= slots.Length || slots[index].None? {
        assert Contents() - {index} == Contents();
        return Err(InvalidArgument);
      }
      r := Ok(slots[index].value);
      slots[index] := None;
    }

    method Get(index: nat) returns (r: Option<T>)
      requires Valid()
      ensures r == if index in Contents() then Some(Contents()[index]) else None
    {
      r := if index < slots.Length then slots[index] else None;
    }
  }

  /** `(i + 1) % n` for an index below `n`. */
  function NextIndex(i: nat, n: nat): (r: nat)
    requires i < n
    ensures r == if i + 1 < n then i + 1 else 0
  {
    assert i + 1 < n ==> (i + 1) % n == i + 1;
    (i + 1) % n
  }

  /** Where the `k`-th element from `head` is kept in a ring of `n`. */
  ghost function Slot(head: nat, k: nat, n: nat): nat
    requires head < n && k <= n
  {
    if head + k < n then head + k else head + k - n
  }

  /** `items` holds `contents` from `head` on, wrapping. */
  ghost predicate Holds<T>(items: seq<Option<T>>, head: nat, contents: seq<T>) {
    && |contents| <= |items|
    && (|items| > 0 ==> head < |items|)
    && forall k: nat {:trigger contents[k]} :: k < |contents| ==> items[Slot(head, k, |items|)] == Some(contents[k])
  }

  lemma PushHolds<T>(items: seq<Option<T>>, head: nat, contents: seq<T>, v: T)
    requires Holds(items, head, contents) && |contents| < |items|
    ensures Holds(items[Slot(head, |contents|, |items|) := Some(v)], head, contents + [v])
  {}

  lemma PopHolds<T>(items: seq<Option<T>>, head: nat, contents: seq<T>)
    requires Holds(items, head, contents) && contents != []
    ensures items[head] == Some(contents[0])
    ensures Holds(items[head := None], NextIndex(head, |items|), contents[1..])
  {
    var n := |items|;
    assert Slot(head, 0, n) == head;
    forall k: nat | k < |contents[1..]|
      ensures items[head := None][Slot(NextIndex(head, n), k, n)] == Some(contents[1..][k])
    {
      assert items[Slot(head, k + 1, n)] == Some(contents[k + 1]);
    }
  }

  /** Refines a bounded sequence. */
  class BoundedQueue<T> {
    const items: array<Option<T>>
    var head: nat
    var tail: nat
    var len: nat
    /** Front first. */
    ghost var contents: seq<T>

    ghost predicate Valid()
      reads this, items
    {
      && len == |contents|
      && Holds(items[..], head, contents)
      && (items.Length > 0 ==> tail < items.Length && (len < items.Length ==> tail == Slot(head, len, items.Length))
                               && (len == items.Length ==> tail == head))
    }

    constructor (capacity: nat)
      ensures Valid() && fresh(items) && items.Length == capacity && contents == []
    {
      items := new Option<T>[capacity](_ => None);
      head, tail, len := 0, 0, 0;
      contents := [];
    }

    /** Joins the back, or hands the value back when full. */
    method Push(value: T) returns (ok: bool)
      requires Valid()
      modifies this, items
      ensures Valid()
      ensures ok <==> |old(contents)| < items.Length
      ensures contents == if ok then old(contents) + [value] else old(contents)
    {
      if len >= items.Length { return false; }
      ghost var was := items[..];
      PushHolds(was, head, contents, value);
      items[tail] := Some(value);
      assert items[..] == was[tail := Some(value)];
      tail := NextIndex(tail, items.Length);
      len := len + 1;
      contents := contents + [value];
      return true;
    }

    /** Takes the front, if there is one. */
    method Pop() returns (r: Option<T>)
      requires Valid()
      modifies this, items
      ensures Valid()
      ensures r == if old(contents) == [] then None else Some(old(contents)[0])
      ensures contents == if old(contents) == [] then [] else old(contents)[1..]
    {
      if len == 0 { return None; }
      ghost var was := items[..];
      PopHolds(was, head, contents);
      r := items[head];
      items[head] := None;
      assert items[..] == was[head := None];
      head := NextIndex(head, items.Length);
      len := len - 1;
      contents := contents[1..];
    }
  }
}
