// A client connection (src/sd/conn.c): when it was made and lost, and the
// services and subscriptions that were published or created over it.
// The connection's service and subscription maps point at the objects the
// database tables hold; here they keep the ids, in insertion order, and the
// objects themselves live in the tables (module Db).
module Conns {
  datatype ConnValue = ConnValue(remoteAddr: string, connectedAt: int, disconnectedAt: int,
                                 services: seq<int>, subs: seq<int>)

  /** The keys of a pmap: no id occurs twice. */
  predicate Distinct(xs: seq<int>) {
    forall i, j :: 0 <= i < j < |xs| ==> xs[i] != xs[j]
  }

  /** `xs` with `x` taken out and the order of the rest kept (what pmap_del does to the keys). */
  function Without(xs: seq<int>, x: int): (r: seq<int>)
    ensures forall y :: y in r <==> y in xs && y != x
    ensures x !in xs ==> r == xs
    ensures |r| <= |xs|
  {
    if |xs| == 0 then []
    else if xs[0] == x then Without(xs[1..], x)
    else [xs[0]] + Without(xs[1..], x)
  }

  lemma {:induction false} WithoutDistinct(xs: seq<int>, x: int)
    requires Distinct(xs)
    ensures Distinct(Without(xs, x))
    ensures x in xs ==> |Without(xs, x)| == |xs| - 1
  {
    if |xs| > 0 {
      DistinctTail(xs);
      WithoutDistinct(xs[1..], x);
      if xs[0] != x {
        ConsDistinct(xs[0], Without(xs[1..], x));
      }
    }
  }

  /** The tail of a list without repeats has none, and lacks the head. */
  lemma DistinctTail(xs: seq<int>)
    requires Distinct(xs) && |xs| > 0
    ensures Distinct(xs[1..]) && xs[0] !in xs[1..]
  {
    forall i, j | 0 <= i < j < |xs[1..]| ensures xs[1..][i] != xs[1..][j] {
      assert xs[1..][i] == xs[i + 1] && xs[1..][j] == xs[j + 1];
    }
    forall j | 0 <= j < |xs[1..]| ensures xs[1..][j] != xs[0] {
      assert xs[1..][j] == xs[j + 1];
    }
  }

  /** A new head on a list without repeats makes a list without repeats. */
  lemma ConsDistinct(a: int, r: seq<int>)
    requires Distinct(r) && a !in r
    ensures Distinct([a] + r)
  {
    var ar := [a] + r;
    forall i, j | 0 <= i < j < |ar| ensures ar[i] != ar[j] {
      assert ar[j] == r[j - 1];
      if i > 0 {
        assert ar[i] == r[i - 1];
      }
    }
  }

  /** Appending a new id and taking it out again gives back the keys. */
  lemma {:induction false} WithoutAppended(xs: seq<int>, x: int)
    requires x !in xs
    ensures Without(xs + [x], x) == xs
  {
    if |xs| == 0 {
      assert [x][1..] == [];
    } else {
      assert (xs + [x])[1..] == xs[1..] + [x];
      WithoutAppended(xs[1..], x);
      assert xs == [xs[0]] + xs[1..];
    }
  }

  /** conn_create: connected (disconnected_at is -1), with no services or subscriptions. */
  function Create(remoteAddr: string, now: nat): (c: ConnValue)
    ensures IsConnected(c) && !IsStale(c)
    ensures c.services == [] && c.subs == [] && c.remoteAddr == remoteAddr && c.connectedAt == now
  {
    ConnValue(remoteAddr, now, -1, [], [])
  }

  /** conn_is_connected. */
  predicate IsConnected(c: ConnValue) {
    c.disconnectedAt < 0
  }

  /** conn_mark_disconnected: the time of disconnection (a clock reading, never negative) is recorded. */
  function MarkDisconnected(c: ConnValue, now: nat): (r: ConnValue)
    requires IsConnected(c)
    ensures !IsConnected(r) && r.disconnectedAt == now
    ensures r.remoteAddr == c.remoteAddr && r.connectedAt == c.connectedAt
    ensures r.services == c.services && r.subs == c.subs
  {
    c.(disconnectedAt := now)
  }

  /** conn_is_stale: disconnected, and no longer holding any service. */
  predicate IsStale(c: ConnValue) {
    !IsConnected(c) && |c.services| == 0
  }

  /** conn_add_service: the map's add requires the id to be new. */
  function AddService(c: ConnValue, id: int): (r: ConnValue)
    requires id !in c.services
    ensures r.services == c.services + [id] && id in r.services
    ensures r == c.(services := r.services)
    ensures !IsStale(r)
  {
    c.(services := c.services + [id])
  }

  /** conn_del_service: the map's del requires the id to be present. */
  function DelService(c: ConnValue, id: int): (r: ConnValue)
    requires id in c.services
    ensures id !in r.services && forall y :: y != id ==> (y in r.services <==> y in c.services)
    ensures r == c.(services := r.services)
  {
    c.(services := Without(c.services, id))
  }

  function AddSub(c: ConnValue, id: int): (r: ConnValue)
    requires id !in c.subs
    ensures r.subs == c.subs + [id] && r == c.(subs := r.subs)
  {
    c.(subs := c.subs + [id])
  }

  function DelSub(c: ConnValue, id: int): (r: ConnValue)
    requires id in c.subs
    ensures id !in r.subs && forall y :: y != id ==> (y in r.subs <==> y in c.subs)
    ensures r == c.(subs := r.subs)
  {
    c.(subs := Without(c.subs, id))
  }

  /** conn_clear_subs: the subscriptions go, the services stay. */
  function ClearSubs(c: ConnValue): (r: ConnValue)
    ensures r.subs == [] && r.services == c.services && r == c.(subs := [])
  {
    c.(subs := [])
  }

  /** A connected connection is never stale, whatever it holds. */
  lemma ConnectedNotStale(c: ConnValue)
    requires IsConnected(c)
    ensures !IsStale(c)
  {
  }

  /** Adding a service and deleting it again restores the connection. */
  lemma AddDelService(c: ConnValue, id: int)
    requires id !in c.services
    ensures DelService(AddService(c, id), id) == c
  {
    WithoutAppended(c.services, id);
  }

  /** Adding a subscription and deleting it again restores the connection. */
  lemma AddDelSub(c: ConnValue, id: int)
    requires id !in c.subs
    ensures DelSub(AddSub(c, id), id) == c
  {
    WithoutAppended(c.subs, id);
  }
}

// The connection object: the fields conn.c updates in place.
module ConnObjects {
  import opened Conns

  class Conn {
    const remoteAddr: string
    const connectedAt: int
    var disconnectedAt: int
    var services: seq<int>
    var subs: seq<int>

    function Value(): ConnValue
      reads this
    {
      ConnValue(remoteAddr, connectedAt, disconnectedAt, services, subs)
    }

    ghost predicate Valid()
      reads this
    {
      Distinct(services) && Distinct(subs)
    }

    /** conn_create, with `now` the clock reading ut_ftime would give. */
    constructor (remoteAddr: string, now: nat)
      ensures Valid() && Value() == Create(remoteAddr, now)
    {
      this.remoteAddr := remoteAddr;
      connectedAt := now;
      disconnectedAt := -1;
      services := [];
      subs := [];
    }

    method IsConnectedNow() returns (r: bool)
      ensures r == IsConnected(Value())
    {
      r := disconnectedAt < 0;
    }

    method MarkDisconnected(now: nat)
      requires Valid() && IsConnected(Value())
      modifies this
      ensures Valid() && Value() == Conns.MarkDisconnected(old(Value()), now)
    {
      disconnectedAt := now;
    }

    method IsStaleNow() returns (r: bool)
      ensures r == IsStale(Value())
    {
      r := disconnectedAt >= 0 && |services| == 0;
    }

    method HasService(id: int) returns (r: bool)
      ensures r <==> id in services
    {
      r := id in services;
    }

    method AddService(id: int)
      requires Valid() && id !in services
      modifies this
      ensures Valid() && Value() == Conns.AddService(old(Value()), id)
    {
      services := services + [id];
    }

    method DelService(id: int)
      requires Valid() && id in services
      modifies this
      ensures Valid() && Value() == Conns.DelService(old(Value()), id)
    {
      WithoutDistinct(services, id);
      services := Without(services, id);
    }

    method HasSub(id: int) returns (r: bool)
      ensures r <==> id in subs
    {
      r := id in subs;
    }

    method AddSub(id: int)
      requires Valid() && id !in subs
      modifies this
      ensures Valid() && Value() == Conns.AddSub(old(Value()), id)
    {
      subs := subs + [id];
    }

    method DelSub(id: int)
      requires Valid() && id in subs
      modifies this
      ensures Valid() && Value() == Conns.DelSub(old(Value()), id)
    {
      WithoutDistinct(subs, id);
      subs := Without(subs, id);
    }

    method ClearSubs()
      requires Valid()
      modifies this
      ensures Valid() && Value() == Conns.ClearSubs(old(Value()))
    {
      subs := [];
    }
  }
}
