// A growable character buffer used to build strings (src/util/sbuf.c).
module Sbuf {
  const CAPACITY_INCREASE_FACTOR: nat := 2

  class SBuf {
    var buf: array<char>
    var len: nat
    ghost var Repr: set<object>

    ghost predicate Valid()
      reads this, Repr
    {
      Repr == {this, buf} && len <= buf.Length
    }

    /** The characters appended so far. */
    function Contents(): string
      requires Valid()
      reads this, Repr
    {
      buf[..len]
    }

    /** sbuf_create: empty, with no storage allocated. */
    constructor ()
      ensures Valid() && fresh(Repr) && Contents() == [] && buf.Length == 0
    {
      buf := new char[0];
      len := 0;
      Repr := {this, buf};
    }

    /** assure_capacity: grows to twice the requested size when too small, keeping the contents. */
    method AssureCapacity(capacity: nat)
      requires Valid()
      modifies Repr
      ensures Valid() && fresh(Repr - old(Repr))
      ensures Contents() == old(Contents())
      ensures buf.Length == if old(buf.Length) < capacity then CAPACITY_INCREASE_FACTOR * capacity else old(buf.Length)
    {
      if buf.Length < capacity {
        var grown := new char[CAPACITY_INCREASE_FACTOR * capacity];
        forall i | 0 <= i < len {
          grown[i] := buf[i];
        }
        buf := grown;
        Repr := {this, buf};
      }
    }

    /** append / sbuf_append: the data follows the current contents. */
    method Append(data: string)
      requires Valid()
      modifies Repr
      ensures Valid() && fresh(Repr - old(Repr))
      ensures Contents() == old(Contents()) + data
    {
      var newLen := len + |data|;
      AssureCapacity(newLen);
      var i := 0;
      while i < |data|
        invariant 0 <= i <= |data|
        invariant Valid() && fresh(Repr - old(Repr)) && newLen <= buf.Length
        invariant buf[..len] == old(Contents())
        invariant buf[len..len + i] == data[..i]
      {
        buf[len + i] := data[i];
        i := i + 1;
      }
      assert buf[..newLen] == buf[..len] + buf[len..len + i];
      len := newLen;
    }

    /** sbuf_append_c. */
    method AppendChar(c: char)
      requires Valid()
      modifies Repr
      ensures Valid() && fresh(Repr - old(Repr))
      ensures Contents() == old(Contents()) + [c]
    {
      Append([c]);
    }

    /**
     * sbuf_morph: terminates the contents with a NUL and hands them over as
     * a C string; the builder is consumed.
     */
    method Morph() returns (s: string)
      requires Valid()
      modifies Repr
      ensures Valid() && fresh(Repr - old(Repr))
      ensures s == old(Contents())
      ensures len < buf.Length && buf[..len + 1] == s + ['\0']
    {
      AssureCapacity(len + 1);
      buf[len] := '\0';
      s := buf[..len];
    }
  }
}
