// A map from 64-bit keys to element references, kept as a list of entries in
// insertion order (src/util/pmap.c). Keys are unique: adding a present key
// or deleting an absent one is an assertion failure in the source.
module PMap {
  import opened Wrappers
  import opened Iteration
  import PList

  datatype Entry<V> = Entry(key: int, value: V)

  predicate HasKeyIn<V>(es: seq<Entry<V>>, key: int) {
    exists i :: 0 <= i < |es| && es[i].key == key
  }

  predicate DistinctKeys<V>(es: seq<Entry<V>>) {
    forall i, j :: 0 <= i < j < |es| ==> es[i].key != es[j].key
  }

  /** The value stored under `key`: the first entry with that key. */
  function Lookup<V>(es: seq<Entry<V>>, key: int): (r: Option<V>)
    ensures r.None? <==> !HasKeyIn(es, key)
    ensures r.Some? ==> Entry(key, r.value) in es
  {
    if |es| == 0 then None
    else if es[0].key == key then Some(es[0].value)
    else
      var r := Lookup(es[1..], key);
      assert HasKeyIn(es, key) ==> HasKeyIn(es[1..], key) by {
        if HasKeyIn(es, key) {
          var i :| 0 <= i < |es| && es[i].key == key;
          assert es[1..][i - 1].key == key;
        }
      }
      assert HasKeyIn(es[1..], key) ==> HasKeyIn(es, key) by {
        if HasKeyIn(es[1..], key) {
          var i :| 0 <= i < |es[1..]| && es[1..][i].key == key;
          assert es[i + 1].key == key;
        }
      }
      r
  }

  /** Index of the entry holding `key`. */
  function KeyIndex<V>(es: seq<Entry<V>>, key: int): (k: nat)
    requires HasKeyIn(es, key)
    ensures k < |es| && es[k].key == key
    ensures forall j :: 0 <= j < k ==> es[j].key != key
  {
    if es[0].key == key then 0
    else
      assert HasKeyIn(es[1..], key) by {
        var i :| 0 <= i < |es| && es[i].key == key;
        assert es[1..][i - 1].key == key;
      }
      1 + KeyIndex(es[1..], key)
  }

  /** Adding a new key makes it map to its value and leaves every other key alone. */
  lemma {:induction false} LookupAfterAdd<V>(es: seq<Entry<V>>, key: int, value: V, other: int)
    requires !HasKeyIn(es, key)
    ensures Lookup(es + [Entry(key, value)], key) == Some(value)
    ensures other != key ==> Lookup(es + [Entry(key, value)], other) == Lookup(es, other)
  {
    if |es| > 0 {
      assert (es + [Entry(key, value)])[1..] == es[1..] + [Entry(key, value)];
      assert !HasKeyIn(es[1..], key) by {
        forall i | 0 <= i < |es[1..]| ensures es[1..][i].key != key {
          assert es[1..][i] == es[i + 1];
        }
      }
      LookupAfterAdd(es[1..], key, value, other);
    }
  }

  /** Deleting a key's entry makes it absent and leaves every other key alone. */
  lemma LookupAfterDel<V>(es: seq<Entry<V>>, key: int, other: int)
    requires DistinctKeys(es) && HasKeyIn(es, key)
    ensures var k := KeyIndex(es, key);
            Lookup(es[..k] + es[k + 1..], key) == None
            && (other != key ==> Lookup(es[..k] + es[k + 1..], other) == Lookup(es, other))
  {
    var k := KeyIndex(es, key);
    var rest := es[..k] + es[k + 1..];
    assert !HasKeyIn(rest, key) by {
      forall i | 0 <= i < |rest| ensures rest[i].key != key {
        if i < k {
          assert rest[i] == es[i];
        } else {
          assert rest[i] == es[i + 1];
        }
      }
    }
    if other != key {
      LookupSkip(es, k, other);
    }
  }

  lemma {:induction false} LookupSkip<V>(es: seq<Entry<V>>, k: nat, other: int)
    requires k < |es| && es[k].key != other
    ensures Lookup(es[..k] + es[k + 1..], other) == Lookup(es, other)
  {
    if k > 0 {
      var rest := es[..k] + es[k + 1..];
      assert rest[0] == es[0];
      assert rest[1..] == es[1..][..k - 1] + es[1..][k..];
      LookupSkip(es[1..], k - 1, other);
    } else {
      assert es[..k] + es[k + 1..] == es[1..];
    }
  }

  class Map<V(0)> {
    var entries: PList.List<Entry<V>>
    ghost var Repr: set<object>

    ghost predicate Valid()
      reads this, Repr
    {
      this in Repr && entries in Repr && entries.Repr <= Repr
      && Repr == {this} + entries.Repr && this !in entries.Repr
      && entries.Valid() && DistinctKeys(entries.Elements())
    }

    function Entries(): seq<Entry<V>>
      requires Valid()
      reads this, Repr
    {
      entries.Elements()
    }

    /** pmap_create. */
    constructor ()
      ensures Valid() && fresh(Repr) && Entries() == []
    {
      entries := new PList.List<Entry<V>>();
      new;
      Repr := {this} + entries.Repr;
    }

    /** pmap_add: appends an entry for a key the map does not hold yet. */
    method Add(key: int, value: V)
      requires Valid() && !HasKeyIn(Entries(), key)
      modifies Repr
      ensures Valid() && fresh(Repr - old(Repr))
      ensures Entries() == old(Entries()) + [Entry(key, value)]
    {
      entries.Append(Entry(key, value));
      Repr := {this} + entries.Repr;
    }

    /** pmap_has_key. */
    method HasKey(key: int) returns (r: bool)
      requires Valid()
      ensures r == HasKeyIn(Entries(), key)
    {
      var probe: V := *;
      r := entries.Has((a: Entry<V>, b: Entry<V>) => a.key == b.key, Entry(key, probe));
    }

    /** pmap_get: the value stored under `key`, or nothing. */
    method Get(key: int) returns (r: Option<V>)
      requires Valid()
      ensures r == Lookup(Entries(), key)
    {
      var probe: V := *;
      var idx := entries.IndexOf((a: Entry<V>, b: Entry<V>) => a.key == b.key, Entry(key, probe));
      if idx < 0 {
        return None;
      }
      var e := entries.Get(idx);
      LookupFirst(Entries(), idx);
      return Some(e.value);
    }

    /** pmap_del: removes the entry of a key the map holds, keeping the others in order. */
    method Del(key: int)
      requires Valid() && HasKeyIn(Entries(), key)
      modifies Repr
      ensures Valid() && Repr == old(Repr)
      ensures var k := KeyIndex(old(Entries()), key);
              Entries() == old(Entries()[..k] + Entries()[k + 1..])
    {
      var probe: V := *;
      var idx := entries.IndexOf((a: Entry<V>, b: Entry<V>) => a.key == b.key, Entry(key, probe));
      assert idx == KeyIndex(Entries(), key);
      ghost var es := Entries();
      entries.Del(idx);
      DistinctAfterRemove(es, idx);
    }

    /** pmap_clear. */
    method Clear()
      requires Valid()
      modifies Repr
      ensures Valid() && fresh(Repr - old(Repr)) && Entries() == []
    {
      entries.Clear();
      Repr := {this} + entries.Repr;
    }

    /** pmap_size. */
    method Size() returns (n: nat)
      requires Valid()
      ensures n == |Entries()|
    {
      n := entries.Len();
    }

    /** pmap_foreach: calls `cb(key, value)` in insertion order until it returns false. */
    method Foreach(cb: (int, V) -> bool) returns (calls: nat)
      requires Valid()
      ensures calls == CallsMade(Entries(), (e: Entry<V>) => cb(e.key, e.value))
    {
      calls := entries.Foreach((e: Entry<V>) => cb(e.key, e.value));
    }
  }

  /** Removing one entry keeps the keys distinct. */
  lemma DistinctAfterRemove<V>(es: seq<Entry<V>>, k: nat)
    requires DistinctKeys(es) && k < |es|
    ensures DistinctKeys(es[..k] + es[k + 1..])
  {
    var rs := es[..k] + es[k + 1..];
    forall i, j | 0 <= i < j < |rs| ensures rs[i].key != rs[j].key {
      var a := if i < k then i else i + 1;
      var b := if j < k then j else j + 1;
      assert rs[i] == es[a] && rs[j] == es[b];
    }
  }

  lemma {:induction false} LookupFirst<V>(es: seq<Entry<V>>, idx: nat)
    requires idx < |es| && forall j :: 0 <= j < idx ==> es[j].key != es[idx].key
    ensures Lookup(es, es[idx].key) == Some(es[idx].value)
  {
    if idx > 0 {
      LookupFirst(es[1..], idx - 1);
    }
  }
}
