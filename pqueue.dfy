// A FIFO queue kept in a ring buffer that doubles when full and is released
// when it drains while holding many spare slots (src/util/pqueue.c).
module PQueue {
  import opened Wrappers

  const CAPACITY_INCREASE_FACTOR: nat := 2
  const MAX_SPARE_CAPACITY: nat := 128

  class Queue<T(0)> {
    var elems: array<T>
    var startIdx: nat
    var len: nat
    ghost var Repr: set<object>

    ghost predicate Valid()
      reads this, Repr
    {
      Repr == {this, elems}
      && len <= elems.Length
      && (elems.Length == 0 ==> startIdx == 0)
      && (elems.Length > 0 ==> startIdx < elems.Length)
    }

    /** Position in the buffer of the i-th queued element: start_idx + i wrapped once. */
    function Slot(i: nat): (k: nat)
      requires Valid() && i < elems.Length
      reads this, Repr
      ensures k < elems.Length
    {
      if startIdx + i < elems.Length then startIdx + i else startIdx + i - elems.Length
    }

    /** The queued elements, oldest first. */
    function Contents(): seq<T>
      requires Valid()
      reads this, Repr
    {
      seq(len, i requires 0 <= i < len && Valid() reads this, Repr => elems[Slot(i)])
    }

    function Capacity(): nat
      reads this
    {
      elems.Length
    }

    /** pqueue_create. */
    constructor ()
      ensures Valid() && fresh(Repr) && Contents() == [] && Capacity() == 0
    {
      elems := new T[0];
      startIdx := 0;
      len := 0;
      Repr := {this, elems};
    }

    /** assure_capacity: re-packs the elements at index 0 of a buffer twice the requested size. */
    method AssureCapacity(minCapacity: nat)
      requires Valid()
      modifies Repr
      ensures Valid() && fresh(Repr - old(Repr))
      ensures Contents() == old(Contents())
      ensures Capacity() == if old(Capacity()) >= minCapacity then old(Capacity()) else CAPACITY_INCREASE_FACTOR * minCapacity
    {
      if elems.Length >= minCapacity {
        return;
      }
      var newElems := new T[CAPACITY_INCREASE_FACTOR * minCapacity];
      ghost var before := Contents();
      CopyInto(newElems);
      startIdx := 0;
      elems := newElems;
      Repr := {this, elems};
      assert Contents() == before;
    }

    /** The copy loop of assure_capacity: the queued elements, oldest first, to the start of `newElems`. */
    method CopyInto(newElems: array<T>)
      requires Valid() && newElems != elems && len <= newElems.Length
      modifies newElems
      ensures forall i :: 0 <= i < len ==> newElems[i] == Contents()[i]
    {
      var newIdx := 0;
      while newIdx < len
        invariant 0 <= newIdx <= len
        invariant forall i :: 0 <= i < newIdx ==> newElems[i] == Contents()[i]
      {
        var oldIdx := (startIdx + newIdx) % elems.Length;
        ModSmall(startIdx + newIdx, elems.Length);
        newElems[newIdx] := elems[oldIdx];
        newIdx := newIdx + 1;
      }
    }

    /** pqueue_push: appends at the tail. */
    method Push(x: T)
      requires Valid()
      modifies Repr
      ensures Valid() && fresh(Repr - old(Repr))
      ensures Contents() == old(Contents()) + [x]
      ensures Capacity() == if old(Capacity()) > old(len) then old(Capacity()) else CAPACITY_INCREASE_FACTOR * (old(len) + 1)
    {
      AssureCapacity(len + 1);
      ghost var before := Contents();
      var lastIdx := (startIdx + len) % elems.Length;
      ModSmall(startIdx + len, elems.Length);
      assert lastIdx == Slot(len);
      elems[lastIdx] := x;
      len := len + 1;
      assert Contents() == before + [x];
    }

    /** pqueue_pop: removes and returns the head; an empty queue yields nothing. */
    method Pop() returns (r: Option<T>)
      requires Valid()
      modifies Repr
      ensures Valid() && fresh(Repr - old(Repr))
      ensures old(len) == 0 ==> r == None && Contents() == old(Contents()) && Capacity() == old(Capacity())
      ensures old(len) > 0 ==> r == Some(old(Contents())[0]) && Contents() == old(Contents())[1..]
      ensures old(len) > 0 ==> Capacity() == if len == 0 && old(Capacity()) > MAX_SPARE_CAPACITY then 0 else old(Capacity())
    {
      if len == 0 {
        return None;
      }
      ghost var before := Contents();
      var elem := elems[startIdx];
      assert elem == before[0];
      ModSmall(startIdx + 1, elems.Length);
      startIdx := (startIdx + 1) % elems.Length;
      len := len - 1;
      assert Contents() == before[1..];
      ConsiderCompacting();
      return Some(elem);
    }

    /** consider_compacting: releases the buffer of an empty queue holding more than 128 slots. */
    method ConsiderCompacting()
      requires Valid()
      modifies Repr
      ensures Valid() && fresh(Repr - old(Repr))
      ensures Contents() == old(Contents())
      ensures Capacity() == if len == 0 && old(Capacity()) > MAX_SPARE_CAPACITY then 0 else old(Capacity())
    {
      if len == 0 && elems.Length > MAX_SPARE_CAPACITY {
        elems := new T[0];
        startIdx := 0;
        Repr := {this, elems};
      }
    }

    /** pqueue_peek: the head, without removing it. */
    method Peek() returns (r: Option<T>)
      requires Valid()
      ensures r == if len == 0 then None else Some(Contents()[0])
    {
      if len == 0 {
        return None;
      }
      return Some(elems[startIdx]);
    }

    function Len(): (n: nat)
      requires Valid()
      reads this, Repr
      ensures n == |Contents()|
    {
      len
    }
  }

  lemma ModSmall(k: nat, m: nat)
    requires m > 0 && k < 2 * m
    ensures k % m == if k < m then k else k - m
  {
  }
}
