// A client of the service-discovery service (src/sd/client.c): its id and
// its connections, and the operations a client performs on the database —
// publish, unpublish, subscribe, unsubscribe, connect and disconnect.
module Clients {
  import opened Wrappers
  import Cn = Conns

  /**
   * A client record: its active connection, if it is connected, and its
   * inactive connections in the order they were appended to the inactive
   * list. client_conn_foreach visits the active one first, then the list.
   */
  datatype ClientValue = ClientValue(clientId: int, active: Option<Cn.ConnValue>, inactive: seq<Cn.ConnValue>)

  /** Where a connection of a client sits. */
  datatype Slot = Active | Inactive(index: nat)

  /** client_create: no active connection and an empty inactive list. */
  function Create(clientId: int): (c: ClientValue)
    ensures !IsConnected(c) && c.inactive == [] && IsStale(c) && c.clientId == clientId
  {
    ClientValue(clientId, None, [])
  }

  /** client_is_connected: there is an active connection. */
  predicate IsConnected(c: ClientValue) {
    c.active.Some?
  }

  /** client_is_stale: none of the client's connections is still of use. */
  predicate IsStale(c: ClientValue) {
    (c.active.Some? ==> Cn.IsStale(c.active.value))
    && forall i :: 0 <= i < |c.inactive| ==> Cn.IsStale(c.inactive[i])
  }

  /** A connected client is never stale, since its active connection is connected. */
  lemma ConnectedNotStale(c: ClientValue)
    requires IsConnected(c) && Cn.IsConnected(c.active.value)
    ensures !IsStale(c)
  {
  }

  /** get_service_conn: the first connection, in client_conn_foreach order, holding `sid`. */
  function ServiceConn(c: ClientValue, sid: int): (r: Option<Slot>)
    ensures r == Some(Active) <==> c.active.Some? && sid in c.active.value.services
    ensures r.Some? && r.value.Inactive? ==>
              r.value.index < |c.inactive| && sid in c.inactive[r.value.index].services
              && (c.active.Some? ==> sid !in c.active.value.services)
              && forall j :: 0 <= j < r.value.index ==> sid !in c.inactive[j].services
    ensures r.None? <==>
              (c.active.Some? ==> sid !in c.active.value.services)
              && forall j :: 0 <= j < |c.inactive| ==> sid !in c.inactive[j].services
  {
    if c.active.Some? && sid in c.active.value.services then Some(Active)
    else
      match FirstHolding(c.inactive, sid, 0)
      case Some(i) => Some(Inactive(i))
      case None => None
  }

  function FirstHolding(cs: seq<Cn.ConnValue>, sid: int, from: nat): (r: Option<nat>)
    requires from <= |cs|
    ensures r.Some? ==> from <= r.value < |cs| && sid in cs[r.value].services
    ensures r.Some? ==> forall j :: from <= j < r.value ==> sid !in cs[j].services
    ensures r.None? <==> forall j :: from <= j < |cs| ==> sid !in cs[j].services
    decreases |cs| - from
  {
    if from == |cs| then None
    else if sid in cs[from].services then Some(from)
    else FirstHolding(cs, sid, from + 1)
  }
}

// The client operations as transitions of the database tables, the
// invariant they keep, and the properties client.c promises.
module ClientSpec {
  import opened Wrappers
  import opened Properties
  import opened Generation
  import opened Clients
  import opened Db
  import Cn = Conns
  import S = Services
  import Subs
  import F = Filter
  import SdErr

  /** A service change reported to the change callback: the service just after the change, and its kind. */
  datatype Change = Change(service: S.ServiceValue, kind: S.ChangeType)

  /** What an operation leaves behind: the new tables, its return code, and the changes it reported, in order. */
  datatype Outcome = Outcome(tables: Tables, rc: int, changes: seq<Change>)

  /** A service between operations: settled, with a current generation. */
  predicate Published(s: S.ServiceValue) {
    S.Settled(s) && s.current.Some?
  }

  /** service_get_client_id: the client that owns the current generation. */
  function Owner(t: Tables, sid: int): int
    requires sid in t.services && t.services[sid].current.Some?
  {
    t.services[sid].current.value.clientId
  }

  /** Every table is keyed by the id its records carry, and ids are non-negative (db.c asserts). */
  predicate KeysMatch(t: Tables) {
    (forall k :: k in t.clients ==> k >= 0 && t.clients[k].clientId == k)
    && (forall k :: k in t.services ==> k >= 0 && t.services[k].id == k)
    && (forall k :: k in t.subs ==> k >= 0 && t.subs[k].id == k)
  }

  /**
   * A client's connections: the active one is connected, the inactive ones
   * are disconnected and their subscriptions are gone, no connection lists
   * an id twice, and no service is held by two connections.
   */
  predicate ClientShape(c: ClientValue) {
    (c.active.Some? ==>
       Cn.IsConnected(c.active.value) && Cn.Distinct(c.active.value.services) && Cn.Distinct(c.active.value.subs))
    && (forall i :: 0 <= i < |c.inactive| ==>
          !Cn.IsConnected(c.inactive[i]) && c.inactive[i].subs == [] && Cn.Distinct(c.inactive[i].services))
    && (forall i, x :: 0 <= i < |c.inactive| && x in c.inactive[i].services && c.active.Some?
          ==> x !in c.active.value.services)
    && (forall i, j, x :: 0 <= i < j < |c.inactive| && x in c.inactive[i].services ==> x !in c.inactive[j].services)
  }

  /** Every service is published, and is held by a connection of its owner and of no other client. */
  predicate Ownership(t: Tables) {
    (forall sid :: sid in t.services ==> Published(t.services[sid]))
    && (forall sid :: sid in t.services ==>
          Owner(t, sid) in t.clients && ServiceConn(t.clients[Owner(t, sid)], sid).Some?)
    && (forall k, sid :: k in t.clients && t.clients[k].active.Some? && sid in t.clients[k].active.value.services
          ==> sid in t.services && Owner(t, sid) == k)
    && (forall k, i, sid ::
          (k in t.clients && 0 <= i < |t.clients[k].inactive| && sid in t.clients[k].inactive[i].services)
          ==> sid in t.services && Owner(t, sid) == k)
  }

  /** The subscriptions of an active connection are in the table and belong to that client. */
  predicate SubsHeld(t: Tables) {
    forall k, x :: k in t.clients && t.clients[k].active.Some? && x in t.clients[k].active.value.subs
      ==> x in t.subs && t.subs[x].clientId == k
  }

  /** The invariant the client operations keep; it is what makes their assertions hold. */
  predicate Consistent(t: Tables) {
    KeysMatch(t) && (forall k :: k in t.clients ==> ClientShape(t.clients[k]))
    && Ownership(t) && SubsHeld(t)
  }

  /** The tables db_create starts with. */
  lemma EmptyConsistent()
    ensures Consistent(Tables(map[], map[], map[]))
  {
  }

  /** Services on an active connection are not orphans. */
  predicate ActiveNotOrphan(t: Tables) {
    forall k, sid :: k in t.clients && t.clients[k].active.Some? && sid in t.clients[k].active.value.services
      ==> sid in t.services && t.services[sid].current.Some? && !S.IsOrphan(t.services[sid])
  }

  /** Services on an inactive connection are orphans. */
  predicate InactiveOrphan(t: Tables) {
    forall k, i, sid ::
      (k in t.clients && 0 <= i < |t.clients[k].inactive| && sid in t.clients[k].inactive[i].services)
      ==> sid in t.services && t.services[sid].current.Some? && S.IsOrphan(t.services[sid])
  }

  /**
   * The orphan rule: a service is an orphan exactly when the connection it
   * was published over is gone, so that its orphan timer runs exactly while
   * nobody can republish it over that connection.
   */
  predicate OrphanRule(t: Tables) {
    ActiveNotOrphan(t) && InactiveOrphan(t)
  }

  // ---------------------------------------------------------------------
  // Connecting and disconnecting

  /** sd_client_connect of an unknown id: client_create and client_connect. */
  function Connect(t: Tables, cid: int, remoteAddr: string, now: nat): (o: Outcome)
    requires cid >= 0 && cid !in t.clients
  {
    var c := Create(cid);
    Outcome(t.(clients := t.clients[cid := c.(active := Some(Cn.Create(remoteAddr, now)))]), SdErr.OK, [])
  }

  /** client_reconnect: refused while connected; otherwise a new active connection. */
  function Reconnect(t: Tables, cid: int, remoteAddr: string, now: nat): (o: Outcome)
    requires cid in t.clients
  {
    var c := t.clients[cid];
    if IsConnected(c) then Outcome(t, SdErr.CLIENT_ALREADY_EXISTS, [])
    else Outcome(t.(clients := t.clients[cid := c.(active := Some(Cn.Create(remoteAddr, now)))]), SdErr.OK, [])
  }

  /** service_handle_conn_inactivation: one modification that makes the service an orphan since `now`. */
  function OrphanOne(s: S.ServiceValue, now: nat): (r: (S.ServiceValue, S.ChangeType))
    requires Published(s)
    ensures Published(r.0) && S.IsOrphan(r.0) && r.0.id == s.id && r.1 == S.Modified
    ensures r.0.current == Some(s.current.value.(orphanSince := Some(now))) && r.0.prev == s.current
  {
    S.Commit(S.SetOrphanSince(S.ModifyBegin(s), now))
  }

  /** The services of an inactivated connection become orphans since `now`, one commit each, in order. */
  function OrphanAll(m: map<int, S.ServiceValue>, ids: seq<int>, now: nat): (r: (map<int, S.ServiceValue>, seq<Change>))
    requires forall x :: x in ids ==> x in m && Published(m[x])
    ensures r.0.Keys == m.Keys && |r.1| == |ids|
    ensures forall x :: x in m && Published(m[x]) ==> Published(r.0[x])
    ensures forall x :: x in m && x !in ids ==> r.0[x] == m[x]
    ensures forall x :: x in ids ==>
              (x in m && Published(m[x]) && Published(r.0[x]) && S.IsOrphan(r.0[x]) && r.0[x].id == m[x].id
               && r.0[x].current.value.clientId == m[x].current.value.clientId)
    decreases |ids|
  {
    if |ids| == 0 then (m, [])
    else
      var before := ids[..|ids| - 1];
      var x := ids[|ids| - 1];
      assert x in ids;
      assert forall y :: y in before ==> y in ids;
      var r := OrphanAll(m, before, now);
      var c := OrphanOne(r.0[x], now);
      (r.0[x := c.0], r.1 + [Change(c.0, c.1)])
  }

  /**
   * client_disconnect: the active connection is marked disconnected, its
   * subscriptions are deleted, its services become orphans, and it joins
   * the inactive list unless it is stale; a stale client leaves the table.
   */
  function Disconnect(t: Tables, cid: int, now: nat): (o: Outcome)
    requires Consistent(t) && cid in t.clients && IsConnected(t.clients[cid])
  {
    var c := t.clients[cid];
    var a := Cn.MarkDisconnected(c.active.value, now);
    var subs := t.subs - set x | x in a.subs;
    var a' := Cn.ClearSubs(a);
    var orphaned := OrphanAll(t.services, a'.services, now);
    var c' := c.(active := None, inactive := c.inactive + if Cn.IsStale(a') then [] else [a']);
    var clients := if IsStale(c') then t.clients - {cid} else t.clients[cid := c'];
    Outcome(Tables(clients, orphaned.0, subs), SdErr.OK, orphaned.1)
  }

  // ---------------------------------------------------------------------
  // Publishing

  /** The client with `sid` taken out of the connection at `w`. */
  function Release(c: ClientValue, w: Slot, sid: int): (r: ClientValue)
    requires ServiceConn(c, sid) == Some(w)
    ensures r.clientId == c.clientId && r.active.Some? == c.active.Some?
  {
    match w
    case Active => c.(active := Some(Cn.DelService(c.active.value, sid)))
    case Inactive(i) => c.(inactive := c.inactive[i := Cn.DelService(c.inactive[i], sid)])
  }

  /**
   * capture_service: the service leaves the connection of its current
   * owner that holds it and joins the active connection of `cid`.
   */
  function Capture(t: Tables, cid: int, sid: int): (r: Tables)
    requires Consistent(t) && sid in t.services && cid in t.clients && IsConnected(t.clients[cid])
    requires sid !in t.clients[cid].active.value.services
    ensures r.services == t.services && r.subs == t.subs && r.clients.Keys == t.clients.Keys
    ensures IsConnected(r.clients[cid]) && sid in r.clients[cid].active.value.services
  {
    var v := Owner(t, sid);
    var victim := Release(t.clients[v], ServiceConn(t.clients[v], sid).value, sid);
    var c := t.clients[v := victim][cid];
    t.(clients := t.clients[v := victim][cid := c.(active := Some(Cn.AddService(c.active.value, sid)))])
  }

  /** The fields client_publish writes into a new or newer generation. */
  function Republished(s: S.ServiceValue, gen: int, props: seq<Pair>, ttl: int, cid: int): (r: S.ServiceValue)
    requires S.WellFormed(s) && S.Ongoing(s)
    ensures S.WellFormed(r) && S.Ongoing(r) && r.inProgress == s.inProgress
    ensures r.id == s.id && r.current == s.current && r.prev == s.prev
    ensures r.next == Some(GenValue(gen, Some(props), ttl, Some(-1), cid))
  {
    S.SetClientId(S.SetNonOrphan(S.SetTtl(S.SetProps(S.SetGeneration(s, gen), props), ttl)), cid)
  }

  /** service_commit of a prepared change, written back to the table; the change is reported. */
  function CommitInto(t: Tables, sid: int, s: S.ServiceValue): (o: Outcome)
    requires sid in t.services && S.WellFormed(s) && S.Ongoing(s) && IsConsistent(s.next.value)
    ensures o.tables == t.(services := t.services[sid := S.Commit(s).0])
    ensures o.rc == SdErr.OK && o.changes == [Change(S.Commit(s).0, S.Commit(s).1)]
  {
    var r := S.Commit(s);
    Outcome(t.(services := t.services[sid := r.0]), SdErr.OK, [Change(r.0, r.1)])
  }

  /**
   * The same-generation data check of client_publish: props_equal as
   * written (new properties first) for the source as written, and the
   * comparison of pair multisets for the corrected publish.
   */
  predicate SameData(props: seq<Pair>, stored: seq<Pair>, corrected: bool) {
    if corrected then SameProps(props, stored) else EqualAsWritten(props, stored)
  }

  /**
   * client_publish. With `corrected` false this is the source as written.
   * With `corrected` true, a service its owner republishes from a new
   * connection is also moved onto that connection, as it is when another
   * client takes it over, and the properties are compared as multisets.
   */
  function PublishWith(t: Tables, cid: int, sid: int, gen: int, props: seq<Pair>, ttl: int,
                       corrected: bool): (o: Outcome)
    requires Consistent(t) && cid in t.clients && IsConnected(t.clients[cid])
    requires sid >= 0 && gen >= 0 && ttl >= 0
  {
    var c := t.clients[cid];
    if sid in t.services then
      var s := t.services[sid];
      var cur := s.current.value;
      var changed := cur.clientId != cid;
      var away := sid !in c.active.value.services;
      if gen == cur.generation then
        if !SameData(props, cur.props.value, corrected) || ttl != cur.ttl then
          Outcome(t, SdErr.SERVICE_SAME_GENERATION_BUT_DIFFERENT_DATA, [])
        else if changed then
          CommitInto(Capture(t, cid, sid), sid, S.SetClientId(S.SetNonOrphan(S.ModifyBegin(s)), cid))
        else if S.IsOrphan(s) then
          CommitInto(if corrected && away then Capture(t, cid, sid) else t, sid, S.SetNonOrphan(S.ModifyBegin(s)))
        else
          Outcome(t, SdErr.OK, [])
      else if gen > cur.generation then
        CommitInto(if changed || (corrected && away) then Capture(t, cid, sid) else t, sid,
                   Republished(S.ModifyBegin(s), gen, props, ttl, cid))
      else
        Outcome(t, SdErr.NEWER_SERVICE_GENERATION_EXISTS, [])
    else
      var r := S.Commit(Republished(S.AddBegin(S.Create(sid)), gen, props, ttl, cid));
      var c' := c.(active := Some(Cn.AddService(c.active.value, sid)));
      Outcome(Tables(t.clients[cid := c'], t.services[sid := r.0], t.subs), SdErr.OK, [Change(r.0, r.1)])
  }

  function PublishAsWritten(t: Tables, cid: int, sid: int, gen: int, props: seq<Pair>, ttl: int): (o: Outcome)
    requires Consistent(t) && cid in t.clients && IsConnected(t.clients[cid])
    requires sid >= 0 && gen >= 0 && ttl >= 0
  {
    PublishWith(t, cid, sid, gen, props, ttl, false)
  }

  function Publish(t: Tables, cid: int, sid: int, gen: int, props: seq<Pair>, ttl: int): (o: Outcome)
    requires Consistent(t) && cid in t.clients && IsConnected(t.clients[cid])
    requires sid >= 0 && gen >= 0 && ttl >= 0
  {
    PublishWith(t, cid, sid, gen, props, ttl, true)
  }

  // ---------------------------------------------------------------------
  // Unpublishing and purging

  /**
   * The owner's record after remove_service: the service leaves the
   * connection holding it, and an inactive connection left stale is
   * dropped from the list.
   */
  function WithoutService(c: ClientValue, sid: int): ClientValue
    requires ServiceConn(c, sid).Some?
  {
    match ServiceConn(c, sid).value
    case Active => c.(active := Some(Cn.DelService(c.active.value, sid)))
    case Inactive(i) =>
      var conn := Cn.DelService(c.inactive[i], sid);
      if Cn.IsStale(conn) then c.(inactive := c.inactive[..i] + c.inactive[i + 1..])
      else c.(inactive := c.inactive[i := conn])
  }

  /**
   * remove_service: the owner lets go of the service, a client left stale
   * leaves the table, the service leaves the table, and the removal is
   * reported.
   */
  function RemoveService(t: Tables, cid: int, sid: int): (r: (Tables, Change))
    requires sid in t.services && S.WellFormed(t.services[sid]) && !S.Ongoing(t.services[sid])
    requires cid in t.clients && ServiceConn(t.clients[cid], sid).Some?
    ensures r.0.services == t.services - {sid} && r.0.subs == t.subs
    ensures r.1.kind == S.Removed && r.1.service.current.None? && r.1.service.prev == t.services[sid].current
  {
    var c' := WithoutService(t.clients[cid], sid);
    var clients := if IsStale(c') then t.clients - {cid} else t.clients[cid := c'];
    var removed := S.Remove(t.services[sid]);
    (Tables(clients, t.services - {sid}, t.subs), Change(removed.0, removed.1))
  }

  /**
   * client_unpublish: an unknown service is an error. A service owned by
   * another client, or an orphan, is first republished by the caller (a
   * modification reported before the removal), and is then removed.
   */
  function Unpublish(t: Tables, cid: int, sid: int): (o: Outcome)
    requires Consistent(t) && cid in t.clients && IsConnected(t.clients[cid])
  {
    if sid !in t.services then Outcome(t, SdErr.NO_SUCH_SERVICE, [])
    else
      var s := t.services[sid];
      var changed := Owner(t, sid) != cid;
      var orphan := S.IsOrphan(s);
      var first :=
        if changed || orphan then
          var b := S.SetNonOrphan(S.ModifyBegin(s));
          var b' := if changed then S.SetClientId(b, cid) else b;
          var b'' := if orphan then S.SetNonOrphan(b') else b';
          CommitInto(if changed then Capture(t, cid, sid) else t, sid, b'')
        else Outcome(t, SdErr.OK, []);
      assert ServiceConn(first.tables.clients[cid], sid).Some?;
      var removed := RemoveService(first.tables, cid, sid);
      Outcome(removed.0, SdErr.OK, first.changes + [removed.1])
  }

  /** client_purge_orphan as written: only for a disconnected owner. */
  predicate PurgeAllowedAsWritten(t: Tables, cid: int, sid: int)
    requires Consistent(t)
  {
    cid in t.clients && !IsConnected(t.clients[cid]) && sid in t.services && Owner(t, sid) == cid
  }

  /** client_purge_orphan: the orphan timer of the service has fired; its owner removes it. */
  function PurgeOrphan(t: Tables, cid: int, sid: int): (o: Outcome)
    requires Consistent(t) && sid in t.services && Owner(t, sid) == cid
  {
    var removed := RemoveService(t, cid, sid);
    Outcome(removed.0, SdErr.OK, [removed.1])
  }

  // ---------------------------------------------------------------------
  // Subscriptions

  /** client_create_sub: a known id is an error; otherwise the subscription joins the table and the active connection. */
  function CreateSub(t: Tables, cid: int, subId: int, filter: Option<F.Filter>): (o: Outcome)
    requires Consistent(t) && cid in t.clients && IsConnected(t.clients[cid]) && subId >= 0
  {
    if subId in t.subs then Outcome(t, SdErr.SUB_ALREADY_EXISTS, [])
    else
      var c := t.clients[cid];
      var c' := c.(active := Some(Cn.AddSub(c.active.value, subId)));
      Outcome(Tables(t.clients[cid := c'], t.services, t.subs[subId := Subs.SubValue(subId, filter, cid)]),
              SdErr.OK, [])
  }

  /**
   * client_unsubscribe: an unknown id is an error, and so is a subscription
   * not made over the caller's active connection; otherwise it leaves both.
   */
  function Unsubscribe(t: Tables, cid: int, subId: int): (o: Outcome)
    requires Consistent(t) && cid in t.clients && IsConnected(t.clients[cid])
  {
    var c := t.clients[cid];
    if subId !in t.subs then Outcome(t, SdErr.NO_SUCH_SUB, [])
    else if subId !in c.active.value.subs then Outcome(t, SdErr.PERM_DENIED, [])
    else
      var c' := c.(active := Some(Cn.DelSub(c.active.value, subId)));
      Outcome(Tables(t.clients[cid := c'], t.services, t.subs - {subId}), SdErr.OK, [])
  }
}
