// What each client operation does, case by case, as client.c states it:
// the error it returns and when, and the records it leaves behind.
module ClientLaws {
  import opened Wrappers
  import opened Properties
  import opened PValues
  import opened Generation
  import opened Clients
  import opened Db
  import opened ClientSpec
  import Cn = Conns
  import S = Services
  import Subs
  import SdErr
  import F = Filter
  import ClientProps

  /** The current generation of a published service. */
  function Cur(t: Tables, sid: int): GenValue
    requires Consistent(t) && sid in t.services
  {
    t.services[sid].current.value
  }

  /**
   * client_publish fails exactly in two cases, and then changes nothing:
   * the same generation with other properties or another ttl, and an
   * older generation.
   */
  lemma PublishErrors(t: Tables, cid: int, sid: int, gen: int, props: seq<Pair>, ttl: int, corrected: bool)
    requires Consistent(t) && cid in t.clients && IsConnected(t.clients[cid])
    requires sid >= 0 && gen >= 0 && ttl >= 0
    ensures var o := PublishWith(t, cid, sid, gen, props, ttl, corrected);
      (o.rc == SdErr.SERVICE_SAME_GENERATION_BUT_DIFFERENT_DATA <==>
         sid in t.services && gen == Cur(t, sid).generation
         && (!SameData(props, Cur(t, sid).props.value, corrected) || ttl != Cur(t, sid).ttl))
      && (o.rc == SdErr.NEWER_SERVICE_GENERATION_EXISTS <==> sid in t.services && gen < Cur(t, sid).generation)
      && (o.rc == SdErr.OK || o.rc == SdErr.SERVICE_SAME_GENERATION_BUT_DIFFERENT_DATA
          || o.rc == SdErr.NEWER_SERVICE_GENERATION_EXISTS)
      && (o.rc != SdErr.OK ==> o.tables == t && o.changes == [])
  {
  }

  /**
   * The data check as written accepts every same-generation republish the
   * corrected one accepts, and more: new properties [(x,1),(x,1)] pass it
   * against stored [(x,1),(y,2)], which the corrected check refuses.
   */
  lemma SameDataAsWrittenLooser(props: seq<Pair>, stored: seq<Pair>)
    ensures SameData(props, stored, true) ==> SameData(props, stored, false)
    ensures var a := [Pair("x", Int64(1)), Pair("x", Int64(1))];
            var b := [Pair("x", Int64(1)), Pair("y", Int64(2))];
            SameData(a, b, false) && !SameData(a, b, true)
  {
    if SameProps(props, stored) {
      SamePropsSound(props, stored);
    }
    EqualAsWrittenNotSymmetric();
  }

  /**
   * A newer generation replaces the current one: the given generation,
   * properties and ttl, not an orphan, owned by the publisher. The service
   * reports one modification and no other service or subscription moves;
   * when it changes owner it is now held by the publisher's active
   * connection.
   */
  lemma PublishNewer(t: Tables, cid: int, sid: int, gen: int, props: seq<Pair>, ttl: int, corrected: bool)
    requires Consistent(t) && cid in t.clients && IsConnected(t.clients[cid])
    requires sid >= 0 && gen >= 0 && ttl >= 0
    requires sid in t.services && gen > Cur(t, sid).generation
    ensures var o := PublishWith(t, cid, sid, gen, props, ttl, corrected);
      var s' := o.tables.services[sid];
      o.rc == SdErr.OK && o.tables.services == t.services[sid := s'] && o.tables.subs == t.subs
      && s'.current == Some(GenValue(gen, Some(props), ttl, Some(-1), cid)) && !S.IsOrphan(s')
      && s'.prev == t.services[sid].current && S.Settled(s')
      && o.changes == [Change(s', S.Modified)]
      && (Owner(t, sid) != cid || corrected ==>
            IsConnected(o.tables.clients[cid]) && sid in o.tables.clients[cid].active.value.services)
  {
  }

  /**
   * Republishing the same generation with the same data changes no data:
   * another client takes the service over, the owner coming back clears
   * its orphan status, and otherwise nothing happens at all.
   */
  lemma PublishSame(t: Tables, cid: int, sid: int, gen: int, props: seq<Pair>, ttl: int, corrected: bool)
    requires Consistent(t) && cid in t.clients && IsConnected(t.clients[cid])
    requires sid >= 0 && gen >= 0 && ttl >= 0
    requires sid in t.services && gen == Cur(t, sid).generation
    requires SameData(props, Cur(t, sid).props.value, corrected) && ttl == Cur(t, sid).ttl
    ensures var o := PublishWith(t, cid, sid, gen, props, ttl, corrected);
      var s := t.services[sid];
      var s' := o.tables.services[sid];
      o.rc == SdErr.OK && o.tables.services == t.services[sid := s'] && o.tables.subs == t.subs
      && (Owner(t, sid) != cid || S.IsOrphan(s) ==>
            s'.current == Some(Cur(t, sid).(orphanSince := Some(-1), clientId := cid))
            && !S.IsOrphan(s') && s'.prev == s.current && o.changes == [Change(s', S.Modified)])
      && (Owner(t, sid) != cid ==>
            IsConnected(o.tables.clients[cid]) && sid in o.tables.clients[cid].active.value.services)
      && (Owner(t, sid) == cid && !S.IsOrphan(s) ==> o == Outcome(t, SdErr.OK, []))
  {
  }

  /**
   * Publishing an unknown id creates the service with the given fields,
   * adds it to the table and to the publisher's active connection, and
   * reports it as added.
   */
  lemma PublishNew(t: Tables, cid: int, sid: int, gen: int, props: seq<Pair>, ttl: int, corrected: bool)
    requires Consistent(t) && cid in t.clients && IsConnected(t.clients[cid])
    requires sid >= 0 && gen >= 0 && ttl >= 0 && sid !in t.services
    ensures var o := PublishWith(t, cid, sid, gen, props, ttl, corrected);
      var s' := o.tables.services[sid];
      o.rc == SdErr.OK && o.tables.services == t.services[sid := s'] && o.tables.subs == t.subs
      && s'.id == sid && s'.current == Some(GenValue(gen, Some(props), ttl, Some(-1), cid)) && s'.prev.None?
      && S.Settled(s') && o.changes == [Change(s', S.Added)]
      && o.tables.clients == t.clients[cid := o.tables.clients[cid]]
      && o.tables.clients[cid].active.Some?
      && o.tables.clients[cid].active.value.services == t.clients[cid].active.value.services + [sid]
  {
  }

  /** client_reconnect fails exactly when the client is connected; otherwise it gets a fresh active connection. */
  lemma ReconnectLaw(t: Tables, cid: int, remoteAddr: string, now: nat)
    requires cid in t.clients
    ensures var o := Reconnect(t, cid, remoteAddr, now);
      (o.rc == SdErr.CLIENT_ALREADY_EXISTS <==> IsConnected(t.clients[cid]))
      && (o.rc != SdErr.OK ==> o.tables == t)
      && (o.rc == SdErr.OK ==>
            o.tables.services == t.services && o.tables.subs == t.subs
            && cid in o.tables.clients && IsConnected(o.tables.clients[cid])
            && o.tables.clients[cid].active.value.services == []
            && o.tables.clients[cid].active.value.subs == []
            && o.tables.clients[cid].inactive == t.clients[cid].inactive)
  {
  }

  /** client_create_sub fails exactly for a known id; otherwise the subscription is the caller's, in both places. */
  lemma CreateSubLaw(t: Tables, cid: int, subId: int, filter: Option<F.Filter>)
    requires Consistent(t) && cid in t.clients && IsConnected(t.clients[cid]) && subId >= 0
    ensures var o := CreateSub(t, cid, subId, filter);
      (o.rc == SdErr.SUB_ALREADY_EXISTS <==> subId in t.subs)
      && (o.rc != SdErr.OK ==> o.tables == t)
      && (o.rc == SdErr.OK ==>
            o.tables.subs == t.subs[subId := Subs.SubValue(subId, filter, cid)]
            && o.tables.services == t.services
            && IsConnected(o.tables.clients[cid]) && subId in o.tables.clients[cid].active.value.subs)
  {
  }

  /**
   * client_unsubscribe: an unknown id, then a subscription of another
   * connection, are errors that change nothing; otherwise it leaves the
   * table and the caller's connection.
   */
  lemma UnsubscribeLaw(t: Tables, cid: int, subId: int)
    requires Consistent(t) && cid in t.clients && IsConnected(t.clients[cid])
    ensures var o := Unsubscribe(t, cid, subId);
      (o.rc == SdErr.NO_SUCH_SUB <==> subId !in t.subs)
      && (o.rc == SdErr.PERM_DENIED <==> subId in t.subs && subId !in t.clients[cid].active.value.subs)
      && (o.rc != SdErr.OK ==> o.tables == t)
      && (subId in t.subs && t.subs[subId].clientId != cid ==> o.rc == SdErr.PERM_DENIED)
      && (o.rc == SdErr.OK ==>
            o.tables.subs == t.subs - {subId} && o.tables.services == t.services
            && subId !in o.tables.clients[cid].active.value.subs)
  {
  }

  /**
   * client_disconnect: the client is no longer connected, the
   * subscriptions of its connection are gone, its services are orphans
   * held by it, and it stays in the table exactly when it is not stale.
   */
  lemma DisconnectLaw(t: Tables, cid: int, now: nat)
    requires Consistent(t) && cid in t.clients && IsConnected(t.clients[cid])
    ensures var o := Disconnect(t, cid, now);
      var a := t.clients[cid].active.value;
      o.rc == SdErr.OK
      && (cid in o.tables.clients ==> !IsConnected(o.tables.clients[cid]) && !IsStale(o.tables.clients[cid]))
      && (cid !in o.tables.clients <==> forall x :: ServiceConn(t.clients[cid], x).None?)
      && (forall x :: x in a.subs ==> x !in o.tables.subs)
      && (forall x :: x in t.subs && x !in a.subs ==> x in o.tables.subs && o.tables.subs[x] == t.subs[x])
      && o.tables.services.Keys == t.services.Keys
      && (forall x :: x in a.services ==>
            o.tables.services[x].current.Some? && S.IsOrphan(o.tables.services[x]) && Owner(o.tables, x) == cid)
      && |o.changes| == |a.services|
  {
    var c := t.clients[cid];
    var a := Cn.MarkDisconnected(c.active.value, now);
    var a' := Cn.ClearSubs(a);
    var c' := c.(active := None, inactive := c.inactive + if Cn.IsStale(a') then [] else [a']);
    assert forall x :: x in a'.services ==> x in t.services && Published(t.services[x]) by {
      forall x | x in a'.services ensures x in t.services && Published(t.services[x]) {
        assert x in c.active.value.services;
      }
    }
    StaleHoldsNothing(c, now);
  }

  /** The inactivated record is stale exactly when the client held no service. */
  lemma StaleHoldsNothing(c: ClientValue, now: nat)
    requires ClientShape(c) && IsConnected(c)
    ensures var a' := Cn.ClearSubs(Cn.MarkDisconnected(c.active.value, now));
      var c' := c.(active := None, inactive := c.inactive + if Cn.IsStale(a') then [] else [a']);
      IsStale(c') <==> forall x :: ServiceConn(c, x).None?
  {
    var a' := Cn.ClearSubs(Cn.MarkDisconnected(c.active.value, now));
    var c' := c.(active := None, inactive := c.inactive + if Cn.IsStale(a') then [] else [a']);
    if !Cn.IsStale(a') {
      assert c'.inactive[|c.inactive|] == a';
    }
    if IsStale(c') {
      forall x ensures ServiceConn(c, x).None? {
        forall i | 0 <= i < |c.inactive| ensures x !in c.inactive[i].services {
          assert c'.inactive[i] == c.inactive[i];
        }
      }
    } else {
      var i :| 0 <= i < |c'.inactive| && !Cn.IsStale(c'.inactive[i]);
      if i < |c.inactive| {
        assert c'.inactive[i] == c.inactive[i];
        var x := c.inactive[i].services[0];
        assert ServiceConn(c, x).Some?;
      } else {
        var x := a'.services[0];
        assert x in c.active.value.services;
        assert ServiceConn(c, x).Some?;
      }
    }
  }

  /**
   * client_unpublish: an unknown id is an error that changes nothing.
   * Otherwise the service leaves the table, reported as removed; when the
   * caller is not its owner, or it is an orphan, the removal is preceded by
   * a republish that makes it the caller's and not an orphan.
   */
  lemma UnpublishLaw(t: Tables, cid: int, sid: int)
    requires Consistent(t) && cid in t.clients && IsConnected(t.clients[cid])
    ensures var o := Unpublish(t, cid, sid);
      (o.rc == SdErr.NO_SUCH_SERVICE <==> sid !in t.services)
      && (o.rc != SdErr.OK ==> o == Outcome(t, SdErr.NO_SUCH_SERVICE, []))
      && (o.rc == SdErr.OK ==>
            o.tables.services == t.services - {sid} && o.tables.subs == t.subs
            && |o.changes| >= 1 && o.changes[|o.changes| - 1].kind == S.Removed
            && (forall i :: 0 <= i < |o.changes| ==> o.changes[i].service.id == sid)
            && o.changes[0].service.prev == t.services[sid].current
            && o.changes[|o.changes| - 1].service.current.None?
            && (Owner(t, sid) == cid && !S.IsOrphan(t.services[sid]) ==>
                  o.changes == [Change(o.changes[0].service, S.Removed)]
                  && o.changes[0].service.prev == t.services[sid].current)
            && (Owner(t, sid) != cid || S.IsOrphan(t.services[sid]) ==>
                  |o.changes| == 2 && o.changes[0].kind == S.Modified
                  && o.changes[0].service.current == Some(Cur(t, sid).(orphanSince := Some(-1), clientId := cid))
                  && o.changes[1].service.prev == o.changes[0].service.current))
  {
    if sid in t.services {
      if Owner(t, sid) != cid || S.IsOrphan(t.services[sid]) {
        UnpublishRepublished(t, cid, sid);
        TwoAbout(Unpublish(t, cid, sid).changes, sid);
      } else {
        UnpublishOwn(t, cid, sid);
      }
    }
  }

  /** Unpublishing someone else's service, or an orphan: a republish, then the removal. */
  lemma UnpublishRepublished(t: Tables, cid: int, sid: int)
    requires Consistent(t) && cid in t.clients && IsConnected(t.clients[cid])
    requires sid in t.services && (Owner(t, sid) != cid || S.IsOrphan(t.services[sid]))
    ensures var o := Unpublish(t, cid, sid);
      o.rc == SdErr.OK
      && o.tables.services == t.services - {sid} && o.tables.subs == t.subs
      && |o.changes| == 2 && o.changes[0].kind == S.Modified && o.changes[1].kind == S.Removed
      && o.changes[0].service.id == sid && o.changes[1].service.id == sid
      && o.changes[0].service.prev == t.services[sid].current
      && o.changes[0].service.current == Some(Cur(t, sid).(orphanSince := Some(-1), clientId := cid))
      && o.changes[1].service.prev == o.changes[0].service.current
      && o.changes[1].service.current.None?
  {
    var s := t.services[sid];
    var b := S.SetNonOrphan(S.ModifyBegin(s));
    var b' := if Owner(t, sid) != cid then S.SetClientId(b, cid) else b;
    var b'' := if S.IsOrphan(s) then S.SetNonOrphan(b') else b';
    var first := CommitInto(if Owner(t, sid) != cid then Capture(t, cid, sid) else t, sid, b'');
    var removed := RemoveService(first.tables, cid, sid);
    assert Unpublish(t, cid, sid) == Outcome(removed.0, SdErr.OK, first.changes + [removed.1]);
    RemoveAfterUpdate(t.services, sid, S.Commit(b'').0);
  }

  /** Two changes that are both about `sid`. */
  lemma TwoAbout(cs: seq<Change>, sid: int)
    requires |cs| == 2 && cs[0].service.id == sid && cs[1].service.id == sid
    ensures forall i :: 0 <= i < |cs| ==> cs[i].service.id == sid
  {
  }

  /** Replacing an entry and then removing it is removing it. */
  lemma RemoveAfterUpdate<K, V>(m: map<K, V>, k: K, v: V)
    ensures m[k := v] - {k} == m - {k}
  {
  }

  /** Unpublishing one's own service that is not an orphan: the removal alone. */
  lemma UnpublishOwn(t: Tables, cid: int, sid: int)
    requires Consistent(t) && cid in t.clients && IsConnected(t.clients[cid])
    requires sid in t.services && Owner(t, sid) == cid && !S.IsOrphan(t.services[sid])
    ensures var o := Unpublish(t, cid, sid);
      o.rc == SdErr.OK
      && o.tables.services == t.services - {sid} && o.tables.subs == t.subs
      && |o.changes| == 1 && o.changes[0].kind == S.Removed && o.changes[0].service.id == sid
      && (forall i :: 0 <= i < |o.changes| ==> o.changes[i].service.id == sid)
      && o.changes[0].service.prev == t.services[sid].current
      && o.changes[0].service.current.None?
  {
  }

  // ---------------------------------------------------------------------
  // Two places where client.c breaks its own rules

  /**
   * As written, client_publish does not move a service its owner
   * republishes, unchanged, from a reconnected client's new connection:
   * the service stops being an orphan but stays on the old, inactive
   * connection, so the orphan rule fails (and a later disconnect of the
   * new connection will not orphan it again).
   */
  lemma PublishAsWrittenBreaksOrphanRule(t: Tables, cid: int, sid: int)
    requires Consistent(t) && OrphanRule(t) && cid in t.clients && IsConnected(t.clients[cid])
    requires sid in t.services && Owner(t, sid) == cid && sid !in t.clients[cid].active.value.services
    ensures var cur := Cur(t, sid);
      var o := PublishAsWritten(t, cid, sid, cur.generation, cur.props.value, cur.ttl);
      o.rc == SdErr.OK && !OrphanRule(o.tables)
  {
    var c := t.clients[cid];
    var cur := Cur(t, sid);
    var i := ServiceConn(c, sid).value.index;
    assert S.IsOrphan(t.services[sid]);
    var o := PublishAsWritten(t, cid, sid, cur.generation, cur.props.value, cur.ttl);
    assert o.tables.clients == t.clients;
    assert sid in o.tables.clients[cid].inactive[i].services;
    assert !S.IsOrphan(o.tables.services[sid]);
  }

  /** The state of that case arises: a client publishes, loses its connection and comes back. */
  lemma ReconnectedOwnerOfOrphan(t: Tables, cid: int, sid: int, now: nat, remoteAddr: string)
    requires Consistent(t) && OrphanRule(t) && cid in t.clients && IsConnected(t.clients[cid])
    requires sid in t.clients[cid].active.value.services
    ensures var t1 := Disconnect(t, cid, now).tables;
      cid in t1.clients && !IsConnected(t1.clients[cid])
      && var t2 := Reconnect(t1, cid, remoteAddr, now).tables;
      Consistent(t2) && OrphanRule(t2) && cid in t2.clients && IsConnected(t2.clients[cid])
      && sid in t2.services && Owner(t2, sid) == cid && S.IsOrphan(t2.services[sid])
      && sid !in t2.clients[cid].active.value.services
  {
    var t1 := Disconnect(t, cid, now).tables;
    ClientProps.DisconnectKeeps(t, cid, now);
    ClientProps.DisconnectOrphans(t, cid, now);
    DisconnectLaw(t, cid, now);
    assert ServiceConn(t.clients[cid], sid).Some?;
    ClientProps.ReconnectKeeps(t1, cid, remoteAddr, now);
  }

  /**
   * As written, client_purge_orphan asserts that the owner is not
   * connected; but an orphan's owner can reconnect while the orphan timer
   * runs, and the timer's purge then fails that assertion.
   */
  lemma PurgeAsWrittenRefused(t: Tables, cid: int, sid: int, now: nat, remoteAddr: string)
    requires Consistent(t) && OrphanRule(t) && cid in t.clients && IsConnected(t.clients[cid])
    requires sid in t.clients[cid].active.value.services
    ensures var t1 := Disconnect(t, cid, now).tables;
      cid in t1.clients
      && var t2 := Reconnect(t1, cid, remoteAddr, now).tables;
      Consistent(t2) && sid in t2.services && S.IsOrphan(t2.services[sid]) && !PurgeAllowedAsWritten(t2, cid, sid)
  {
    ReconnectedOwnerOfOrphan(t, cid, sid, now, remoteAddr);
  }

  /** The corrected purge needs only ownership, and keeps both invariants in that state. */
  lemma PurgeAfterReconnect(t: Tables, cid: int, sid: int, now: nat, remoteAddr: string)
    requires Consistent(t) && OrphanRule(t) && cid in t.clients && IsConnected(t.clients[cid])
    requires sid in t.clients[cid].active.value.services
    ensures var t1 := Disconnect(t, cid, now).tables;
      cid in t1.clients
      && var t2 := Reconnect(t1, cid, remoteAddr, now).tables;
      Consistent(t2) && sid in t2.services && Owner(t2, sid) == cid
      && var o := PurgeOrphan(t2, cid, sid);
      Consistent(o.tables) && OrphanRule(o.tables) && sid !in o.tables.services
  {
    ReconnectedOwnerOfOrphan(t, cid, sid, now, remoteAddr);
    var t2 := Reconnect(Disconnect(t, cid, now).tables, cid, remoteAddr, now).tables;
    ClientProps.PurgeOrphanKeeps(t2, cid, sid);
  }
}
