// A property bag: an ordered list of (name, value) pairs in which a name may
// occur several times (src/sd/props.c). The source keeps two parallel arrays
// that grow by one slot on every add; the class keeps them as two sequences.
module Properties {
  import opened Wrappers
  import opened PValues
  import opened Iteration

  datatype Pair = Pair(name: string, value: PValue)

  /** Values stored under `name`, in insertion order. */
  function ValuesOf(ps: seq<Pair>, name: string): (vs: seq<PValue>)
    ensures |vs| <= |ps|
  {
    if |ps| == 0 then []
    else (if ps[0].name == name then [ps[0].value] else []) + ValuesOf(ps[1..], name)
  }

  predicate HasName(ps: seq<Pair>, name: string) {
    exists i :: 0 <= i < |ps| && ps[i].name == name
  }

  function Names(ps: seq<Pair>): set<string> {
    set i | 0 <= i < |ps| :: ps[i].name
  }

  /** Index of the first pair named `name`. */
  function FirstIndex(ps: seq<Pair>, name: string): (k: nat)
    requires HasName(ps, name)
    ensures k < |ps| && ps[k].name == name
    ensures forall j :: 0 <= j < k ==> ps[j].name != name
  {
    if ps[0].name == name then 0
    else
      assert HasName(ps[1..], name) by {
        var i :| 0 <= i < |ps| && ps[i].name == name;
        assert ps[1..][i - 1].name == name;
      }
      1 + FirstIndex(ps[1..], name)
  }

  lemma {:induction false} ValuesOfCount(ps: seq<Pair>, name: string)
    ensures |ValuesOf(ps, name)| > 0 <==> HasName(ps, name)
    ensures HasName(ps, name) ==> ValuesOf(ps, name)[0] == ps[FirstIndex(ps, name)].value
  {
    if |ps| > 0 {
      ValuesOfCount(ps[1..], name);
      if ps[0].name != name {
        assert HasName(ps, name) ==> HasName(ps[1..], name) by {
          if HasName(ps, name) {
            var i :| 0 <= i < |ps| && ps[i].name == name;
            assert ps[1..][i - 1].name == name;
          }
        }
        assert HasName(ps[1..], name) ==> HasName(ps, name) by {
          if HasName(ps[1..], name) {
            var i :| 0 <= i < |ps[1..]| && ps[1..][i].name == name;
            assert ps[i + 1].name == name;
          }
        }
      }
    }
  }

  lemma ValuesOfAppend(ps: seq<Pair>, qs: seq<Pair>, name: string)
    ensures ValuesOf(ps + qs, name) == ValuesOf(ps, name) + ValuesOf(qs, name)
  {
    if |ps| > 0 {
      assert (ps + qs)[0] == ps[0];
      assert (ps + qs)[1..] == ps[1..] + qs;
      ValuesOfAppend(ps[1..], qs, name);
    } else {
      assert ps + qs == qs;
    }
  }

  /** Every value stored under `name` comes from a pair of that name. */
  lemma {:induction false} ValuesOfSound(ps: seq<Pair>, name: string, v: PValue)
    ensures v in ValuesOf(ps, name) <==> Pair(name, v) in ps
  {
    if |ps| > 0 {
      ValuesOfSound(ps[1..], name, v);
      assert ps == [ps[0]] + ps[1..];
    }
  }

  /** The pairs with the first pair named `name` removed. */
  function DelFirst(ps: seq<Pair>, name: string): seq<Pair>
    requires HasName(ps, name)
  {
    var k := FirstIndex(ps, name);
    ps[..k] + ps[k + 1..]
  }

  /**
   * props_del_one removes exactly one pair, the earliest of that name: the
   * values under that name lose their first element, other names keep all
   * of theirs, and the pair multiset shrinks by that one pair.
   */
  lemma DelFirstEffect(ps: seq<Pair>, name: string, other: string)
    requires HasName(ps, name)
    ensures |DelFirst(ps, name)| == |ps| - 1
    ensures |ValuesOf(ps, name)| > 0
    ensures ValuesOf(DelFirst(ps, name), name) == ValuesOf(ps, name)[1..]
    ensures other != name ==> ValuesOf(DelFirst(ps, name), other) == ValuesOf(ps, other)
    ensures multiset(DelFirst(ps, name)) == multiset(ps) - multiset{ps[FirstIndex(ps, name)]}
  {
    var k := FirstIndex(ps, name);
    DelFirstValues(ps, name, name);
    DelFirstValues(ps, name, other);
    ValuesOfCount(ps, name);
    DelFirstMultiset(ps, k);
  }

  /** Removing the first pair named `name` takes the first value under `name` and no other. */
  lemma DelFirstValues(ps: seq<Pair>, name: string, x: string)
    requires HasName(ps, name)
    ensures |ValuesOf(ps, name)| > 0
    ensures ValuesOf(DelFirst(ps, name), x) == if x == name then ValuesOf(ps, x)[1..] else ValuesOf(ps, x)
  {
    var k := FirstIndex(ps, name);
    ValuesAround(ps, k, x);
    ValuesOfOne(ps[k], x);
    ValuesOfCount(ps, name);
    if x == name {
      NoneBefore(ps[..k], name);
      DropMiddle(ValuesOf(ps, x), ValuesOf(DelFirst(ps, name), x), ValuesOf(ps[..k], x),
                 ValuesOf([ps[k]], x), ValuesOf(ps[k + 1..], x));
    } else {
      KeepAround(ValuesOf(ps, x), ValuesOf(DelFirst(ps, name), x), ValuesOf(ps[..k], x),
                 ValuesOf([ps[k]], x), ValuesOf(ps[k + 1..], x));
    }
  }

  /** The values under `x` of the pairs before, at and after index k. */
  lemma ValuesAround(ps: seq<Pair>, k: nat, x: string)
    requires k < |ps|
    ensures ValuesOf(ps, x) == ValuesOf(ps[..k], x) + ValuesOf([ps[k]], x) + ValuesOf(ps[k + 1..], x)
    ensures ValuesOf(ps[..k] + ps[k + 1..], x) == ValuesOf(ps[..k], x) + ValuesOf(ps[k + 1..], x)
  {
    assert ps == ps[..k] + [ps[k]] + ps[k + 1..];
    ValuesOfAppend(ps[..k] + [ps[k]], ps[k + 1..], x);
    ValuesOfAppend(ps[..k], [ps[k]], x);
    ValuesOfAppend(ps[..k], ps[k + 1..], x);
  }

  lemma ValuesOfOne(p: Pair, x: string)
    ensures ValuesOf([p], x) == if p.name == x then [p.value] else []
  {
    assert [p][1..] == [];
  }

  /** Leaving out a one-element middle that starts the whole leaves its tail. */
  lemma DropMiddle<T>(whole: seq<T>, rest: seq<T>, a: seq<T>, b: seq<T>, c: seq<T>)
    requires whole == a + b + c && rest == a + c && a == [] && |b| == 1
    ensures |whole| > 0 && rest == whole[1..]
  {
    assert whole == b + c;
  }

  /** Leaving out an empty middle leaves everything. */
  lemma KeepAround<T>(whole: seq<T>, rest: seq<T>, a: seq<T>, b: seq<T>, c: seq<T>)
    requires whole == a + b + c && rest == a + c && b == []
    ensures rest == whole
  {
    assert a + b == a;
  }

  /** Dropping the pair at index k drops exactly that pair from the multiset. */
  lemma DelFirstMultiset(ps: seq<Pair>, k: nat)
    requires k < |ps|
    ensures multiset(ps[..k] + ps[k + 1..]) == multiset(ps) - multiset{ps[k]}
  {
    assert ps == ps[..k] + [ps[k]] + ps[k + 1..];
  }

  lemma {:induction false} NoneBefore(ps: seq<Pair>, name: string)
    requires forall j :: 0 <= j < |ps| ==> ps[j].name != name
    ensures ValuesOf(ps, name) == []
  {
    if |ps| > 0 {
      NoneBefore(ps[1..], name);
    }
  }

  /** props_equal as written: same length, and every pair of `a` occurs in `b`. */
  predicate EqualAsWritten(a: seq<Pair>, b: seq<Pair>) {
    |a| == |b| && forall i :: 0 <= i < |a| ==> a[i] in b
  }

  /** What props_equal is meant to decide: the same pairs, counted with multiplicity. */
  predicate SameProps(a: seq<Pair>, b: seq<Pair>) {
    multiset(a) == multiset(b)
  }

  /**
   * The check as written is asymmetric: with a duplicated pair on one side
   * it accepts (a, b) but rejects (b, a), while the property tests assert
   * props_equal(a, b) == props_equal(b, a).
   */
  lemma EqualAsWrittenNotSymmetric()
    ensures var a := [Pair("x", Int64(1)), Pair("x", Int64(1))];
            var b := [Pair("x", Int64(1)), Pair("y", Int64(2))];
            EqualAsWritten(a, b) && !EqualAsWritten(b, a) && !SameProps(a, b)
  {
    var a := [Pair("x", Int64(1)), Pair("x", Int64(1))];
    var b := [Pair("x", Int64(1)), Pair("y", Int64(2))];
    assert b[0] in b;
    assert b[1] !in a;
    assert multiset(a)[Pair("y", Int64(2))] == 0;
    assert multiset(b)[Pair("y", Int64(2))] == 1;
  }

  /** Multiset equality implies the written check, and is symmetric. */
  lemma SamePropsSound(a: seq<Pair>, b: seq<Pair>)
    requires SameProps(a, b)
    ensures EqualAsWritten(a, b) && EqualAsWritten(b, a) && SameProps(b, a)
  {
    assert |multiset(a)| == |multiset(b)|;
    forall i | 0 <= i < |a| ensures a[i] in b {
      assert a[i] in multiset(a);
    }
    forall i | 0 <= i < |b| ensures b[i] in a {
      assert b[i] in multiset(b);
    }
  }

  lemma {:induction false} SubMultisetSameSize(ma: multiset<Pair>, mb: multiset<Pair>)
    requires ma <= mb && |ma| == |mb|
    ensures ma == mb
  {
    if ma != multiset{} {
      var x :| x in ma;
      SubMultisetSameSize(ma - multiset{x}, mb - multiset{x});
      assert ma == (ma - multiset{x}) + multiset{x};
      assert mb == (mb - multiset{x}) + multiset{x};
    } else {
      assert |mb| == 0;
    }
  }

  /** Equal lengths and equal counts for every pair of `a` give the same multiset. */
  lemma CountsDecideSameProps(a: seq<Pair>, b: seq<Pair>)
    requires |a| == |b|
    requires forall i :: 0 <= i < |a| ==> multiset(a)[a[i]] == multiset(b)[a[i]]
    ensures SameProps(a, b)
  {
    forall x ensures multiset(a)[x] <= multiset(b)[x] {
      if x in multiset(a) {
        var i :| 0 <= i < |a| && a[i] == x;
      }
    }
    SubMultisetSameSize(multiset(a), multiset(b));
  }

  /** Number of distinct names: what props_num_names counts. */
  function NumNames(ps: seq<Pair>): nat {
    |Names(ps)|
  }

  /** One more pair adds its name to the count exactly when no earlier pair has it. */
  lemma NameStep(ps: seq<Pair>, i: nat)
    requires i < |ps|
    ensures ps[i].name in Names(ps[..i]) <==> exists k :: 0 <= k < i && ps[k].name == ps[i].name
    ensures NumNames(ps[..i + 1]) == NumNames(ps[..i]) + if ps[i].name in Names(ps[..i]) then 0 else 1
  {
    assert ps[..i + 1] == ps[..i] + [ps[i]];
    NamesSnoc(ps[..i], ps[i]);
    var before := Names(ps[..i]);
    if ps[i].name in before {
      var k :| 0 <= k < i && ps[..i][k].name == ps[i].name;
      assert ps[k].name == ps[i].name;
      assert before + {ps[i].name} == before;
    } else {
      assert |before + {ps[i].name}| == |before| + 1;
    }
    if exists k :: 0 <= k < i && ps[k].name == ps[i].name {
      var k :| 0 <= k < i && ps[k].name == ps[i].name;
      assert ps[..i][k].name == ps[i].name;
      assert ps[..i][k].name in Names(ps[..i]);
    }
  }

  lemma NamesSnoc(ps: seq<Pair>, p: Pair)
    ensures Names(ps + [p]) == Names(ps) + {p.name}
  {
    var qs := ps + [p];
    assert qs[|ps|].name == p.name;
    forall n | n in Names(ps) ensures n in Names(qs) {
      var i :| 0 <= i < |ps| && ps[i].name == n;
      assert qs[i].name == n;
    }
  }

  class Props {
    var names: seq<string>
    var values: seq<PValue>

    ghost predicate Valid()
      reads this
    {
      |names| == |values|
    }

    function Pairs(): (ps: seq<Pair>)
      requires Valid()
      reads this
      ensures |ps| == |names|
      ensures forall i :: 0 <= i < |ps| ==> ps[i] == Pair(names[i], values[i])
    {
      var ns, vs := names, values;
      seq(|ns|, i requires 0 <= i < |ns| => Pair(ns[i], vs[i]))
    }

    /** props_create: an empty bag. */
    constructor ()
      ensures Valid() && Pairs() == []
    {
      names := [];
      values := [];
    }

    /** props_add (and its _int64/_str forms): append one pair at the end. */
    method Add(name: string, value: PValue)
      requires Valid()
      modifies this
      ensures Valid() && Pairs() == old(Pairs()) + [Pair(name, PValues.Clone(value))]
    {
      names := names + [name];
      values := values + [PValues.Clone(value)];
    }

    function NumValues(): (n: nat)
      requires Valid()
      reads this
      ensures n == |Pairs()|
    {
      |names|
    }

    /** has_pair: linear search for an equal (name, value) pair. */
    method HasPair(name: string, value: PValue) returns (r: bool)
      requires Valid()
      ensures r <==> Pair(name, value) in Pairs()
    {
      var i := 0;
      while i < |names|
        invariant 0 <= i <= |names|
        invariant forall j :: 0 <= j < i ==> Pairs()[j] != Pair(name, value)
      {
        if names[i] == name && PValues.Equal(values[i], value) {
          assert Pairs()[i] == Pair(name, value);
          return true;
        }
        i := i + 1;
      }
      return false;
    }

    /** props_equal, as written (see EqualAsWrittenNotSymmetric). */
    method Equal(other: Props) returns (r: bool)
      requires Valid() && other.Valid()
      ensures r == EqualAsWritten(Pairs(), other.Pairs())
    {
      if |names| != |other.names| {
        return false;
      }
      var i := 0;
      while i < |names|
        invariant 0 <= i <= |names|
        invariant forall j :: 0 <= j < i ==> Pairs()[j] in other.Pairs()
      {
        var found := other.HasPair(names[i], values[i]);
        if !found {
          return false;
        }
        i := i + 1;
      }
      return true;
    }

    /** How many pairs equal to (name, value) the bag holds. */
    method CountPair(name: string, value: PValue) returns (n: nat)
      requires Valid()
      ensures n == multiset(Pairs())[Pair(name, value)]
    {
      n := 0;
      var i := 0;
      while i < |names|
        invariant 0 <= i <= |names|
        invariant n == multiset(Pairs()[..i])[Pair(name, value)]
      {
        assert Pairs()[..i + 1] == Pairs()[..i] + [Pairs()[i]];
        if names[i] == name && PValues.Equal(values[i], value) {
          n := n + 1;
        }
        i := i + 1;
      }
      assert Pairs()[..i] == Pairs();
    }

    /**
     * props_equal as intended: the same length, and each pair of this bag
     * occurs as many times in `other` as here.
     */
    method EqualCorrected(other: Props) returns (r: bool)
      requires Valid() && other.Valid()
      ensures r == SameProps(Pairs(), other.Pairs())
    {
      if |names| != |other.names| {
        assert |multiset(Pairs())| != |multiset(other.Pairs())|;
        return false;
      }
      var i := 0;
      while i < |names|
        invariant 0 <= i <= |names|
        invariant forall j :: 0 <= j < i ==> multiset(Pairs())[Pairs()[j]] == multiset(other.Pairs())[Pairs()[j]]
      {
        var here := CountPair(names[i], values[i]);
        var there := other.CountPair(names[i], values[i]);
        if here != there {
          return false;
        }
        i := i + 1;
      }
      CountsDecideSameProps(Pairs(), other.Pairs());
      return true;
    }

    /** props_num_names: count each name at its first occurrence. */
    method CountNames() returns (count: nat)
      requires Valid()
      ensures count == NumNames(Pairs())
    {
      count := 0;
      var i := 0;
      while i < |names|
        invariant 0 <= i <= |names|
        invariant count == NumNames(Pairs()[..i])
      {
        var duplicate := false;
        var j := 0;
        while j < i
          invariant 0 <= j <= i
          invariant !duplicate
          invariant forall k :: 0 <= k < j ==> names[k] != names[i]
        {
          if names[j] == names[i] {
            duplicate := true;
            break;
          }
          j := j + 1;
        }
        NameStep(Pairs(), i);
        if duplicate {
          assert Pairs()[..i][j].name == names[i];
        } else {
          count := count + 1;
        }
        i := i + 1;
      }
      assert Pairs()[..i] == Pairs();
    }

    /** props_clone: a new bag holding equal pairs in the same order. */
    method Clone() returns (copy: Props)
      requires Valid()
      ensures fresh(copy) && copy.Valid() && copy.Pairs() == Pairs()
    {
      copy := new Props();
      var i := 0;
      while i < |names|
        invariant 0 <= i <= |names|
        invariant copy.Valid() && copy.Pairs() == Pairs()[..i]
      {
        copy.Add(names[i], values[i]);
        i := i + 1;
      }
    }

    /**
     * props_get: the number of values stored under `name`; the first
     * `capacity` of them (in order) are written to the caller's array.
     */
    method Get(name: string, capacity: nat) returns (count: nat, written: seq<PValue>)
      requires Valid()
      ensures count == |ValuesOf(Pairs(), name)|
      ensures written == ValuesOf(Pairs(), name)[..if count < capacity then count else capacity]
    {
      count := 0;
      written := [];
      var i := 0;
      while i < |names|
        invariant 0 <= i <= |names|
        invariant count == |ValuesOf(Pairs()[..i], name)|
        invariant written == ValuesOf(Pairs()[..i], name)[..if count < capacity then count else capacity]
      {
        assert Pairs()[..i + 1] == Pairs()[..i] + [Pairs()[i]];
        ValuesOfAppend(Pairs()[..i], [Pairs()[i]], name);
        if names[i] == name {
          if count < capacity {
            written := written + [values[i]];
          }
          count := count + 1;
        }
        i := i + 1;
      }
      assert Pairs()[..i] == Pairs();
    }

    /** props_get_one: the first value stored under `name`, if any. */
    method GetOne(name: string) returns (r: Option<PValue>)
      requires Valid()
      ensures r.None? <==> !HasName(Pairs(), name)
      ensures r.Some? ==> |ValuesOf(Pairs(), name)| > 0 && r.value == ValuesOf(Pairs(), name)[0]
    {
      ValuesOfCount(Pairs(), name);
      var i := 0;
      while i < |names|
        invariant 0 <= i <= |names|
        invariant forall j :: 0 <= j < i ==> names[j] != name
      {
        if names[i] == name {
          assert FirstIndex(Pairs(), name) == i;
          return Some(values[i]);
        }
        i := i + 1;
      }
      return None;
    }

    /** props_has. */
    method Has(name: string) returns (r: bool)
      requires Valid()
      ensures r == HasName(Pairs(), name)
    {
      var i := 0;
      while i < |names|
        invariant 0 <= i <= |names|
        invariant forall j :: 0 <= j < i ==> names[j] != name
      {
        if names[i] == name {
          assert Pairs()[i].name == name;
          return true;
        }
        i := i + 1;
      }
      return false;
    }

    /**
     * props_del_one: removes the first pair named `name`, shifting the later
     * pairs down; the source aborts when there is no such pair.
     */
    method DelOne(name: string)
      requires Valid() && HasName(Pairs(), name)
      modifies this
      ensures Valid() && Pairs() == DelFirst(old(Pairs()), name)
    {
      var i := 0;
      while i < |names|
        invariant 0 <= i <= |names|
        invariant forall j :: 0 <= j < i ==> names[j] != name
      {
        if names[i] == name {
          assert FirstIndex(Pairs(), name) == i;
          names := names[..i] + names[i + 1..];
          values := values[..i] + values[i + 1..];
          return;
        }
        i := i + 1;
      }
      assert false;
    }

    /**
     * props_foreach: calls `cb` on each pair in order, stopping after the
     * first call that returns false; returns the number of calls made.
     */
    method Foreach(cb: (string, PValue) -> bool) returns (calls: nat)
      requires Valid()
      ensures calls == CallsMade(Pairs(), (p: Pair) => cb(p.name, p.value))
    {
      ghost var f := (p: Pair) => cb(p.name, p.value);
      var cont := true;
      calls := 0;
      while cont && calls < |names|
        invariant 0 <= calls <= |names|
        invariant cont ==> CallsMade(Pairs(), f) == calls + CallsMade(Pairs()[calls..], f)
        invariant !cont ==> CallsMade(Pairs(), f) == calls
      {
        assert Pairs()[calls..][1..] == Pairs()[calls + 1..];
        cont := cb(names[calls], values[calls]);
        calls := calls + 1;
      }
    }
  }
}
