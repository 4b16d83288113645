// A growable array of element references (src/util/plist.c). Elements are
// modelled as values of a type parameter; the *_deep variants take the
// element clone function as a parameter, the *_cnted ones differ only in
// reference counting and are not modelled separately.
module PList {
  import opened Iteration

  const CAPACITY_ASK_FACTOR: nat := 2

  class List<T(0)> {
    var elems: array<T>
    var len: nat
    ghost var Repr: set<object>

    ghost predicate Valid()
      reads this, Repr
    {
      Repr == {this, elems} && len <= elems.Length
    }

    function Elements(): seq<T>
      requires Valid()
      reads this, Repr
    {
      elems[..len]
    }

    function Capacity(): nat
      reads this
    {
      elems.Length
    }

    /** plist_create: empty, with no storage. */
    constructor ()
      ensures Valid() && fresh(Repr) && Elements() == [] && Capacity() == 0
    {
      elems := new T[0];
      len := 0;
      Repr := {this, elems};
    }

    /** plist_clone: a shallow copy whose capacity is exactly its length. */
    method Clone() returns (copy: List<T>)
      requires Valid()
      ensures fresh(copy) && fresh(copy.Repr) && copy.Valid()
      ensures copy.Elements() == Elements() && copy.Capacity() == len
    {
      copy := new List<T>();
      if len > 0 {
        var a := new T[len];
        forall i | 0 <= i < len {
          a[i] := elems[i];
        }
        copy.elems := a;
        copy.len := len;
        copy.Repr := {copy, a};
      }
    }

    /** plist_clone_deep: a copy holding a clone of every element, in order. */
    method CloneDeep(clone: T -> T) returns (copy: List<T>)
      requires Valid()
      ensures fresh(copy) && fresh(copy.Repr) && copy.Valid()
      ensures |copy.Elements()| == len
      ensures forall i :: 0 <= i < len ==> copy.Elements()[i] == clone(Elements()[i])
    {
      copy := new List<T>();
      var i := 0;
      while i < len
        invariant 0 <= i <= len
        invariant copy.Valid() && fresh(copy.Repr) && copy.Repr !! Repr
        invariant |copy.Elements()| == i
        invariant forall j :: 0 <= j < i ==> copy.Elements()[j] == clone(Elements()[j])
      {
        copy.Append(clone(elems[i]));
        i := i + 1;
      }
    }

    /** assure_capacity: grows to twice the requested size when too small. */
    method AssureCapacity(capacity: nat)
      requires Valid()
      modifies Repr
      ensures Valid() && fresh(Repr - old(Repr))
      ensures Elements() == old(Elements())
      ensures Capacity() == if old(Capacity()) < capacity then CAPACITY_ASK_FACTOR * capacity else old(Capacity())
    {
      if elems.Length < capacity {
        var grown := new T[CAPACITY_ASK_FACTOR * capacity];
        forall i | 0 <= i < len {
          grown[i] := elems[i];
        }
        elems := grown;
        Repr := {this, elems};
      }
    }

    /** plist_append: the element goes at the end. */
    method Append(x: T)
      requires Valid()
      modifies Repr
      ensures Valid() && fresh(Repr - old(Repr))
      ensures Elements() == old(Elements()) + [x]
      ensures Capacity() == if old(Capacity()) < old(len) + 1 then CAPACITY_ASK_FACTOR * (old(len) + 1) else old(Capacity())
    {
      AssureCapacity(len + 1);
      elems[len] := x;
      len := len + 1;
    }

    /** plist_get (the source asserts the index is in range). */
    method Get(idx: nat) returns (x: T)
      requires Valid() && idx < len
      ensures x == Elements()[idx]
    {
      x := elems[idx];
    }

    /** plist_del: removes the element at idx, shifting the later ones down; capacity is kept. */
    method Del(idx: nat)
      requires Valid() && idx < len
      modifies Repr
      ensures Valid() && Repr == old(Repr) && Capacity() == old(Capacity())
      ensures Elements() == old(Elements()[..idx] + Elements()[idx + 1..])
    {
      ghost var before := Elements();
      var k := idx;
      while k < len - 1
        invariant idx <= k <= len - 1
        invariant Valid() && Repr == old(Repr) && len == old(len) && |before| == len
        invariant forall j :: 0 <= j < idx ==> elems[j] == before[j]
        invariant forall j :: idx <= j < k ==> elems[j] == before[j + 1]
        invariant forall j :: k <= j < len ==> elems[j] == before[j]
      {
        elems[k] := elems[k + 1];
        k := k + 1;
      }
      len := len - 1;
      ghost var after := before[..idx] + before[idx + 1..];
      assert forall j :: 0 <= j < len ==> elems[j] == after[j];
      assert Elements() == after;
    }

    /** plist_clear: releases the storage of a non-empty list; an empty list keeps its capacity. */
    method Clear()
      requires Valid()
      modifies Repr
      ensures Valid() && fresh(Repr - old(Repr))
      ensures Elements() == []
      ensures Capacity() == if old(len) > 0 then 0 else old(Capacity())
    {
      if len > 0 {
        elems := new T[0];
        len := 0;
        Repr := {this, elems};
      }
    }

    function Len(): (n: nat)
      requires Valid()
      reads this, Repr
      ensures n == |Elements()|
    {
      len
    }

    /** plist_index_of: the first index whose element `eq` deems equal to x, or -1. */
    method IndexOf(eq: (T, T) -> bool, x: T) returns (idx: int)
      requires Valid()
      ensures -1 <= idx < len
      ensures idx == -1 <==> forall j :: 0 <= j < len ==> !eq(Elements()[j], x)
      ensures idx >= 0 ==> eq(Elements()[idx], x) && forall j :: 0 <= j < idx ==> !eq(Elements()[j], x)
    {
      var i := 0;
      while i < len
        invariant 0 <= i <= len
        invariant forall j :: 0 <= j < i ==> !eq(elems[j], x)
      {
        if eq(elems[i], x) {
          assert eq(Elements()[i], x);
          return i;
        }
        i := i + 1;
      }
      return -1;
    }

    /** plist_has. */
    method Has(eq: (T, T) -> bool, x: T) returns (r: bool)
      requires Valid()
      ensures r <==> exists j :: 0 <= j < len && eq(Elements()[j], x)
    {
      var idx := IndexOf(eq, x);
      r := idx >= 0;
    }

    /** plist_foreach. */
    method Foreach(cb: T -> bool) returns (calls: nat)
      requires Valid()
      ensures calls == CallsMade(Elements(), cb)
    {
      var cont := true;
      calls := 0;
      while cont && calls < len
        invariant 0 <= calls <= len
        invariant cont ==> CallsMade(Elements(), cb) == calls + CallsMade(Elements()[calls..], cb)
        invariant !cont ==> CallsMade(Elements(), cb) == calls
      {
        assert Elements()[calls..][1..] == Elements()[calls + 1..];
        cont := cb(elems[calls]);
        calls := calls + 1;
      }
    }
  }
}
