// The client operations of src/sd/client.c as the source runs them: step
// by step against the database, each proved to leave exactly the tables
// (and to report exactly the changes) that ClientSpec describes.
module ClientOps {
  import opened Wrappers
  import opened Properties
  import opened Clients
  import opened Db
  import opened ClientSpec
  import Cn = Conns
  import S = Services
  import Subs
  import SdErr
  import F = Filter

  /** client_is_stale: looks for a connection still of use, the active one first. */
  method ClientIsStale(c: ClientValue) returns (r: bool)
    ensures r == IsStale(c)
  {
    if c.active.Some? && !Cn.IsStale(c.active.value) {
      return false;
    }
    var i := 0;
    while i < |c.inactive|
      invariant 0 <= i <= |c.inactive|
      invariant forall j :: 0 <= j < i ==> Cn.IsStale(c.inactive[j])
    {
      if !Cn.IsStale(c.inactive[i]) {
        return false;
      }
      i := i + 1;
    }
    return true;
  }

  /** get_service_conn: the first connection holding the service, the active one first. */
  method GetServiceConn(c: ClientValue, sid: int) returns (r: Option<Slot>)
    ensures r == ServiceConn(c, sid)
  {
    if c.active.Some? && sid in c.active.value.services {
      return Some(Active);
    }
    var i := 0;
    while i < |c.inactive|
      invariant 0 <= i <= |c.inactive|
      invariant forall j :: 0 <= j < i ==> sid !in c.inactive[j].services
    {
      if sid in c.inactive[i].services {
        return Some(Inactive(i));
      }
      i := i + 1;
    }
    return None;
  }

  /** client_connect: a new client, connected, joins the table. */
  method ClientConnect(db: Db, cid: int, remoteAddr: string, now: nat)
    requires cid >= 0 && cid !in db.clients
    modifies db
    ensures db.State() == Connect(old(db.State()), cid, remoteAddr, now).tables
  {
    var c := Create(cid);
    c := c.(active := Some(Cn.Create(remoteAddr, now)));
    db.AddClient(cid, c);
  }

  /** client_reconnect. */
  method ClientReconnect(db: Db, cid: int, remoteAddr: string, now: nat) returns (rc: int)
    requires cid in db.clients
    modifies db
    ensures Outcome(db.State(), rc, []) == Reconnect(old(db.State()), cid, remoteAddr, now)
  {
    var found := db.GetClient(cid);
    var c := found.value;
    if IsConnected(c) {
      return SdErr.CLIENT_ALREADY_EXISTS;
    }
    db.PutClient(cid, c.(active := Some(Cn.Create(remoteAddr, now))));
    return SdErr.OK;
  }

  /** sub_handle_conn_inactivation, for each subscription of the connection: it leaves the table. */
  method DeleteSubs(db: Db, ids: seq<int>)
    requires Cn.Distinct(ids) && forall x :: x in ids ==> x >= 0 && x in db.subs
    modifies db
    ensures db.subs == old(db.subs) - set x | x in ids
    ensures db.clients == old(db.clients) && db.services == old(db.services)
  {
    var i := 0;
    while i < |ids|
      invariant 0 <= i <= |ids|
      invariant db.clients == old(db.clients) && db.services == old(db.services)
      invariant db.subs == old(db.subs) - set x | x in ids[..i]
    {
      var x := ids[i];
      assert x !in ids[..i];
      assert x !in set y | y in ids[..i];
      assert x in old(db.subs);
      db.DelSub(x);
      assert ids[..i + 1] == ids[..i] + [x];
      i := i + 1;
    }
    assert ids[..i] == ids;
  }

  /** service_handle_conn_inactivation, for each service of the connection: it becomes an orphan. */
  method OrphanServices(db: Db, ids: seq<int>, now: nat) returns (changes: seq<Change>)
    requires forall x :: x in ids ==> x in db.services && Published(db.services[x])
    modifies db
    ensures (db.services, changes) == OrphanAll(old(db.services), ids, now)
    ensures db.clients == old(db.clients) && db.subs == old(db.subs)
  {
    changes := [];
    var j := 0;
    while j < |ids|
      invariant 0 <= j <= |ids|
      invariant db.clients == old(db.clients) && db.subs == old(db.subs)
      invariant (db.services, changes) == OrphanAll(old(db.services), ids[..j], now)
    {
      var x := ids[j];
      assert ids[..j + 1][..j] == ids[..j];
      var s := db.GetService(x);
      var r := OrphanOne(s.value, now);
      db.PutService(x, r.0);
      changes := changes + [Change(r.0, r.1)];
      j := j + 1;
    }
    assert ids[..j] == ids;
  }

  /**
   * client_disconnect: the subscriptions of the active connection leave
   * the table, its services become orphans, and the connection joins the
   * inactive list unless stale; a stale client leaves the table.
   */
  method ClientDisconnect(db: Db, cid: int, now: nat) returns (changes: seq<Change>)
    requires Consistent(db.State()) && cid in db.clients && IsConnected(db.clients[cid])
    modifies db
    ensures Outcome(db.State(), SdErr.OK, changes) == Disconnect(old(db.State()), cid, now)
  {
    ghost var t := db.State();
    var found := db.GetClient(cid);
    var c := found.value;
    var a := Cn.MarkDisconnected(c.active.value, now);
    forall x | x in a.subs ensures x >= 0 && x in db.subs {
      assert x in c.active.value.subs;
      assert x in t.subs && t.subs[x].clientId == cid;
      assert t.subs[x].id == x;
    }
    DeleteSubs(db, a.subs);
    var a' := Cn.ClearSubs(a);
    forall x | x in a'.services ensures x in db.services && Published(db.services[x]) {
      assert x in c.active.value.services;
    }
    changes := OrphanServices(db, a'.services, now);
    var inactive := c.inactive;
    if !Cn.IsStale(a') {
      inactive := inactive + [a'];
    }
    var c' := c.(active := None, inactive := inactive);
    assert c' == c.(active := None, inactive := c.inactive + if Cn.IsStale(a') then [] else [a']);
    var stale := ClientIsStale(c');
    if stale {
      db.DelClient(cid);
    } else {
      db.PutClient(cid, c');
    }
  }

  /** capture_service: the service leaves its owner's connection and joins the active connection of `cid`. */
  method CaptureService(db: Db, cid: int, sid: int)
    requires Consistent(db.State()) && sid in db.services && cid in db.clients && IsConnected(db.clients[cid])
    requires sid !in db.clients[cid].active.value.services
    modifies db
    ensures db.State() == Capture(old(db.State()), cid, sid)
  {
    ghost var t := db.State();
    var s := db.GetService(sid);
    var victimId := s.value.current.value.clientId;
    var victim := db.GetClient(victimId);
    var w := GetServiceConn(victim.value, sid);
    db.PutClient(victimId, Release(victim.value, w.value, sid));
    var c := db.GetClient(cid);
    db.PutClient(cid, c.value.(active := Some(Cn.AddService(c.value.active.value, sid))));
  }

  /** Commits a prepared change of a service and writes it back; the change is reported. */
  method CommitService(db: Db, sid: int, s: S.ServiceValue) returns (change: Change)
    requires sid in db.services && S.WellFormed(s) && S.Ongoing(s) && Generation.IsConsistent(s.next.value)
    modifies db
    ensures Outcome(db.State(), SdErr.OK, [change]) == CommitInto(old(db.State()), sid, s)
  {
    var r := S.Commit(s);
    db.PutService(sid, r.0);
    return Change(r.0, r.1);
  }

  /**
   * client_publish, with the owner's republish from a new connection moving
   * the service onto it.
   */
  method ClientPublish(db: Db, cid: int, sid: int, gen: int, props: seq<Pair>, ttl: int)
    returns (rc: int, changes: seq<Change>)
    requires Consistent(db.State()) && cid in db.clients && IsConnected(db.clients[cid])
    requires sid >= 0 && gen >= 0 && ttl >= 0
    modifies db
    ensures Outcome(db.State(), rc, changes) == Publish(old(db.State()), cid, sid, gen, props, ttl)
  {
    var found := db.GetClient(cid);
    var c := found.value;
    var service := db.GetService(sid);
    if service.Some? {
      rc, changes := PublishExisting(db, cid, c, service.value, gen, props, ttl);
    } else {
      rc, changes := PublishNew(db, cid, c, sid, gen, props, ttl);
    }
  }

  /** client_publish of a known service: the generation decides. */
  method PublishExisting(db: Db, cid: int, c: ClientValue, s: S.ServiceValue, gen: int, props: seq<Pair>, ttl: int)
    returns (rc: int, changes: seq<Change>)
    requires Consistent(db.State()) && cid in db.clients && IsConnected(db.clients[cid])
    requires c == db.clients[cid] && s.id in db.services && db.services[s.id] == s
    requires s.id >= 0 && gen >= 0 && ttl >= 0
    modifies db
    ensures Outcome(db.State(), rc, changes) == Publish(old(db.State()), cid, s.id, gen, props, ttl)
  {
    var sid := s.id;
    var cur := s.current.value;
    var changed := cur.clientId != cid;
    var away := sid !in c.active.value.services;
    if gen == cur.generation {
      if !SameData(props, cur.props.value, true) || ttl != cur.ttl {
        return SdErr.SERVICE_SAME_GENERATION_BUT_DIFFERENT_DATA, [];
      }
      if changed {
        CaptureService(db, cid, sid);
        var change := CommitService(db, sid, S.SetClientId(S.SetNonOrphan(S.ModifyBegin(s)), cid));
        return SdErr.OK, [change];
      } else if S.IsOrphan(s) {
        if away {
          CaptureService(db, cid, sid);
        }
        var change := CommitService(db, sid, S.SetNonOrphan(S.ModifyBegin(s)));
        return SdErr.OK, [change];
      }
      return SdErr.OK, [];
    } else if gen > cur.generation {
      if changed || away {
        CaptureService(db, cid, sid);
      }
      var change := CommitService(db, sid, Republished(S.ModifyBegin(s), gen, props, ttl, cid));
      return SdErr.OK, [change];
    }
    return SdErr.NEWER_SERVICE_GENERATION_EXISTS, [];
  }

  /** client_publish of an unknown service: it is created, committed and joins the active connection. */
  method PublishNew(db: Db, cid: int, c: ClientValue, sid: int, gen: int, props: seq<Pair>, ttl: int)
    returns (rc: int, changes: seq<Change>)
    requires Consistent(db.State()) && cid in db.clients && IsConnected(db.clients[cid])
    requires c == db.clients[cid] && sid !in db.services
    requires sid >= 0 && gen >= 0 && ttl >= 0
    modifies db
    ensures Outcome(db.State(), rc, changes) == Publish(old(db.State()), cid, sid, gen, props, ttl)
  {
    var r := S.Commit(Republished(S.AddBegin(S.Create(sid)), gen, props, ttl, cid));
    db.AddService(sid, r.0);
    db.PutClient(cid, c.(active := Some(Cn.AddService(c.active.value, sid))));
    return SdErr.OK, [Change(r.0, r.1)];
  }

  /**
   * remove_service: the service leaves the connection holding it, which is
   * dropped if left stale; a client left stale leaves the table; then the
   * service leaves the table and reports its removal.
   */
  method RemoveServiceOf(db: Db, cid: int, sid: int) returns (change: Change)
    requires sid >= 0 && sid in db.services && S.WellFormed(db.services[sid]) && !S.Ongoing(db.services[sid])
    requires cid >= 0 && cid in db.clients && ServiceConn(db.clients[cid], sid).Some?
    modifies db
    ensures (db.State(), change) == RemoveService(old(db.State()), cid, sid)
  {
    var service := db.GetService(sid);
    var found := db.GetClient(cid);
    var c := found.value;
    var w := GetServiceConn(c, sid);
    var c' := c;
    match w.value {
      case Active =>
        c' := c.(active := Some(Cn.DelService(c.active.value, sid)));
      case Inactive(i) =>
        var conn := Cn.DelService(c.inactive[i], sid);
        if Cn.IsStale(conn) {
          c' := c.(inactive := c.inactive[..i] + c.inactive[i + 1..]);
        } else {
          c' := c.(inactive := c.inactive[i := conn]);
        }
    }
    assert c' == WithoutService(c, sid);
    var stale := ClientIsStale(c');
    if stale {
      db.DelClient(cid);
    } else {
      db.PutClient(cid, c');
    }
    db.DelService(sid);
    var removed := S.Remove(service.value);
    return Change(removed.0, removed.1);
  }

  /**
   * client_unpublish: a non-owner's or an orphan's unpublish republishes
   * the service as the caller's first, then removes it.
   */
  method ClientUnpublish(db: Db, cid: int, sid: int) returns (rc: int, changes: seq<Change>)
    requires Consistent(db.State()) && cid in db.clients && IsConnected(db.clients[cid])
    modifies db
    ensures Outcome(db.State(), rc, changes) == Unpublish(old(db.State()), cid, sid)
  {
    ghost var t := db.State();
    var service := db.GetService(sid);
    if service.None? {
      return SdErr.NO_SUCH_SERVICE, [];
    }
    var s := service.value;
    var changed := cid != s.current.value.clientId;
    var orphan := S.IsOrphan(s);
    changes := [];
    if changed || orphan {
      if changed {
        CaptureService(db, cid, sid);
      }
      var b := S.SetNonOrphan(S.ModifyBegin(s));
      if changed {
        b := S.SetClientId(b, cid);
      }
      if orphan {
        b := S.SetNonOrphan(b);
      }
      var change := CommitService(db, sid, b);
      changes := [change];
    }
    assert ServiceConn(db.clients[cid], sid).Some?;
    var removed := RemoveServiceOf(db, cid, sid);
    return SdErr.OK, changes + [removed];
  }

  /** client_purge_orphan: the owner of a service whose orphan timer fired removes it. */
  method ClientPurgeOrphan(db: Db, cid: int, sid: int) returns (change: Change)
    requires Consistent(db.State()) && sid in db.services && Owner(db.State(), sid) == cid
    modifies db
    ensures Outcome(db.State(), SdErr.OK, [change]) == PurgeOrphan(old(db.State()), cid, sid)
  {
    change := RemoveServiceOf(db, cid, sid);
  }

  /** client_create_sub. */
  method ClientCreateSub(db: Db, cid: int, subId: int, filter: Option<F.Filter>) returns (rc: int)
    requires Consistent(db.State()) && cid in db.clients && IsConnected(db.clients[cid]) && subId >= 0
    modifies db
    ensures Outcome(db.State(), rc, []) == CreateSub(old(db.State()), cid, subId, filter)
  {
    var known := db.HasSub(subId);
    if known {
      return SdErr.SUB_ALREADY_EXISTS;
    }
    var found := db.GetClient(cid);
    var c := found.value;
    db.PutClient(cid, c.(active := Some(Cn.AddSub(c.active.value, subId))));
    db.AddSub(subId, Subs.SubValue(subId, filter, cid));
    return SdErr.OK;
  }

  /** client_unsubscribe. */
  method ClientUnsubscribe(db: Db, cid: int, subId: int) returns (rc: int)
    requires Consistent(db.State()) && cid in db.clients && IsConnected(db.clients[cid])
    modifies db
    ensures Outcome(db.State(), rc, []) == Unsubscribe(old(db.State()), cid, subId)
  {
    var known := db.HasSub(subId);
    if !known {
      return SdErr.NO_SUCH_SUB;
    }
    var found := db.GetClient(cid);
    var c := found.value;
    if subId !in c.active.value.subs {
      return SdErr.PERM_DENIED;
    }
    db.PutClient(cid, c.(active := Some(Cn.DelSub(c.active.value, subId))));
    db.DelSub(subId);
    return SdErr.OK;
  }
}
