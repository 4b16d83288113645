// The service-discovery database (src/sd/db.c): three tables keyed by id,
// one each for clients, services and subscriptions. The tables own the
// records; an update made in place through a record reference in the source
// is a write-back (Put*) here.
module Db {
  import opened Wrappers
  import opened Clients
  import opened Services
  import opened Subs
  import opened Conns

  datatype Tables = Tables(clients: map<int, ClientValue>, services: map<int, ServiceValue>,
                           subs: map<int, SubValue>)

  /**
   * The ids a foreach visits: each key of the table once, in some order
   * (the tables are association lists visited in insertion order, which
   * is not modelled).
   */
  ghost predicate Enumerates(ids: seq<int>, keys: set<int>) {
    Distinct(ids) && forall x :: x in ids <==> x in keys
  }

  /** Lists the keys of a table, each once. */
  method Keys<V>(m: map<int, V>) returns (ids: seq<int>)
    ensures Enumerates(ids, m.Keys)
  {
    ids := [];
    var left := m.Keys;
    while left != {}
      invariant Distinct(ids)
      invariant forall x :: x in ids <==> x in m.Keys && x !in left
      invariant left <= m.Keys
      decreases left
    {
      assert exists y :: y in left by {
        if forall y :: y !in left {
          assert false;
        }
      }
      var x :| x in left;
      ids := ids + [x];
      left := left - {x};
    }
  }

  class Db {
    var clients: map<int, ClientValue>
    var services: map<int, ServiceValue>
    var subs: map<int, SubValue>

    function State(): Tables
      reads this
    {
      Tables(clients, services, subs)
    }

    /** db_create: three empty tables. */
    constructor ()
      ensures clients == map[] && services == map[] && subs == map[]
    {
      clients := map[];
      services := map[];
      subs := map[];
    }

    method HasClient(id: int) returns (r: bool)
      ensures r <==> id in clients
    {
      r := id in clients;
    }

    /** db_get_client: the client, or nothing (NULL) for an unknown id. */
    method GetClient(id: int) returns (r: Option<ClientValue>)
      ensures r.Some? <==> id in clients
      ensures r.Some? ==> r.value == clients[id]
    {
      r := if id in clients then Some(clients[id]) else None;
    }

    /** db_add_client: the id must be non-negative and new; the other tables stay as they are. */
    method AddClient(id: int, c: ClientValue)
      requires id >= 0 && id !in clients
      modifies this
      ensures clients == old(clients)[id := c] && services == old(services) && subs == old(subs)
    {
      clients := clients[id := c];
    }

    /** db_del_client: the id must be non-negative and present; the other tables stay as they are. */
    method DelClient(id: int)
      requires id >= 0 && id in clients
      modifies this
      ensures clients == old(clients) - {id} && services == old(services) && subs == old(subs)
    {
      clients := clients - {id};
    }

    /** Write-back of a client record updated in place. */
    method PutClient(id: int, c: ClientValue)
      requires id in clients
      modifies this
      ensures clients == old(clients)[id := c] && services == old(services) && subs == old(subs)
    {
      clients := clients[id := c];
    }

    method HasService(id: int) returns (r: bool)
      ensures r <==> id in services
    {
      r := id in services;
    }

    method GetService(id: int) returns (r: Option<ServiceValue>)
      ensures r.Some? <==> id in services
      ensures r.Some? ==> r.value == services[id]
    {
      r := if id in services then Some(services[id]) else None;
    }

    method AddService(id: int, s: ServiceValue)
      requires id >= 0 && id !in services
      modifies this
      ensures services == old(services)[id := s] && clients == old(clients) && subs == old(subs)
    {
      services := services[id := s];
    }

    method DelService(id: int)
      requires id >= 0 && id in services
      modifies this
      ensures services == old(services) - {id} && clients == old(clients) && subs == old(subs)
    {
      services := services - {id};
    }

    /** Write-back of a service record updated in place. */
    method PutService(id: int, s: ServiceValue)
      requires id in services
      modifies this
      ensures services == old(services)[id := s] && clients == old(clients) && subs == old(subs)
    {
      services := services[id := s];
    }

    method HasSub(id: int) returns (r: bool)
      ensures r <==> id in subs
    {
      r := id in subs;
    }

    method GetSub(id: int) returns (r: Option<SubValue>)
      ensures r.Some? <==> id in subs
      ensures r.Some? ==> r.value == subs[id]
    {
      r := if id in subs then Some(subs[id]) else None;
    }

    method AddSub(id: int, x: SubValue)
      requires id >= 0 && id !in subs
      modifies this
      ensures subs == old(subs)[id := x] && clients == old(clients) && services == old(services)
    {
      subs := subs[id := x];
    }

    method DelSub(id: int)
      requires id >= 0 && id in subs
      modifies this
      ensures subs == old(subs) - {id} && clients == old(clients) && services == old(services)
    {
      subs := subs - {id};
    }

    /** db_foreach_client: the ids of the clients, each once. */
    method ClientIds() returns (ids: seq<int>)
      ensures Enumerates(ids, clients.Keys)
    {
      ids := Keys(clients);
    }

    /** db_foreach_service: the ids of the services, each once. */
    method ServiceIds() returns (ids: seq<int>)
      ensures Enumerates(ids, services.Keys)
    {
      ids := Keys(services);
    }

    /** db_foreach_sub: the ids of the subscriptions, each once. */
    method SubIds() returns (ids: seq<int>)
      ensures Enumerates(ids, subs.Keys)
    {
      ids := Keys(subs);
    }
  }
}
