// The client operations keep the database consistent and the orphan rule
// true, and do what client.c promises; one corrected operation and one
// assertion of the source are shown to fail the rule.
module ClientProps {
  import opened Wrappers
  import opened Properties
  import opened Generation
  import opened Clients
  import opened Db
  import opened ClientSpec
  import Cn = Conns
  import S = Services
  import Subs
  import SdErr
  import F = Filter

  /** `c` holds exactly the services `t` says `cid` owns. */
  ghost predicate HoldsOwned(t: Tables, cid: int, c: ClientValue)
    requires forall sid :: sid in t.services ==> t.services[sid].current.Some?
  {
    forall sid :: ServiceConn(c, sid).Some? <==> sid in t.services && Owner(t, sid) == cid
  }

  /**
   * Replacing one client record (or adding one) keeps the tables
   * consistent when the new record is well shaped, holds exactly the
   * services its client owns, and its active subscriptions are its own;
   * the subscription table may lose subscriptions of that client only,
   * and gain ones of that client.
   */
  lemma UpdateClient(t: Tables, cid: int, c': ClientValue, subs': map<int, Subs.SubValue>)
    requires Consistent(t) && cid >= 0 && c'.clientId == cid && ClientShape(c')
    requires HoldsOwned(t, cid, c')
    requires forall x :: x in subs' ==> x >= 0 && subs'[x].id == x
    requires forall x :: x in t.subs && t.subs[x].clientId != cid ==> x in subs' && subs'[x] == t.subs[x]
    requires forall x :: c'.active.Some? && x in c'.active.value.subs ==> x in subs' && subs'[x].clientId == cid
    ensures Consistent(Tables(t.clients[cid := c'], t.services, subs'))
  {
    var t' := Tables(t.clients[cid := c'], t.services, subs');
    assert KeysMatch(t');
    assert forall k :: k in t'.clients ==> ClientShape(t'.clients[k]);
    UpdateClientOwners(t, cid, c', subs');
    UpdateClientHeld(t, cid, c', subs');
    UpdateClientSubs(t, cid, c', subs');
  }

  lemma UpdateClientOwners(t: Tables, cid: int, c': ClientValue, subs': map<int, Subs.SubValue>)
    requires Ownership(t) && HoldsOwned(t, cid, c')
    ensures var t' := Tables(t.clients[cid := c'], t.services, subs');
      forall sid :: sid in t'.services ==>
        Owner(t', sid) in t'.clients && ServiceConn(t'.clients[Owner(t', sid)], sid).Some?
  {
    var t' := Tables(t.clients[cid := c'], t.services, subs');
    forall sid | sid in t'.services
      ensures Owner(t', sid) in t'.clients && ServiceConn(t'.clients[Owner(t', sid)], sid).Some?
    {
      var k := Owner(t, sid);
      assert ServiceConn(t.clients[k], sid).Some?;
    }
  }

  lemma UpdateClientHeld(t: Tables, cid: int, c': ClientValue, subs': map<int, Subs.SubValue>)
    requires Ownership(t) && HoldsOwned(t, cid, c')
    ensures Ownership(Tables(t.clients[cid := c'], t.services, subs'))
  {
    var t' := Tables(t.clients[cid := c'], t.services, subs');
    UpdateClientOwners(t, cid, c', subs');
    forall k, sid | k in t'.clients && t'.clients[k].active.Some? && sid in t'.clients[k].active.value.services
      ensures sid in t'.services && Owner(t', sid) == k
    {
      if k == cid {
        assert ServiceConn(c', sid).Some?;
      }
    }
    forall k, i, sid | k in t'.clients && 0 <= i < |t'.clients[k].inactive| && sid in t'.clients[k].inactive[i].services
      ensures sid in t'.services && Owner(t', sid) == k
    {
      if k == cid {
        assert ServiceConn(c', sid).Some?;
      }
    }
  }

  lemma UpdateClientSubs(t: Tables, cid: int, c': ClientValue, subs': map<int, Subs.SubValue>)
    requires SubsHeld(t)
    requires forall x :: x in t.subs && t.subs[x].clientId != cid ==> x in subs' && subs'[x] == t.subs[x]
    requires forall x :: c'.active.Some? && x in c'.active.value.subs ==> x in subs' && subs'[x].clientId == cid
    ensures SubsHeld(Tables(t.clients[cid := c'], t.services, subs'))
  {
    var t' := Tables(t.clients[cid := c'], t.services, subs');
    forall k, x | k in t'.clients && t'.clients[k].active.Some? && x in t'.clients[k].active.value.subs
      ensures x in t'.subs && t'.subs[x].clientId == k
    {
      if k != cid {
        assert x in t.subs && t.subs[x].clientId == k;
      }
    }
  }

  /** Replacing one client record keeps the orphan rule when the new record's connections follow it. */
  lemma UpdateClientOrphans(t: Tables, cid: int, c': ClientValue, subs': map<int, Subs.SubValue>)
    requires OrphanRule(t)
    requires forall sid :: c'.active.Some? && sid in c'.active.value.services ==>
               sid in t.services && t.services[sid].current.Some? && !S.IsOrphan(t.services[sid])
    requires forall i, sid :: 0 <= i < |c'.inactive| && sid in c'.inactive[i].services ==>
               sid in t.services && t.services[sid].current.Some? && S.IsOrphan(t.services[sid])
    ensures OrphanRule(Tables(t.clients[cid := c'], t.services, subs'))
  {
  }

  /** Owners are clients: an unknown client owns nothing. */
  lemma UnknownOwnsNothing(t: Tables, cid: int)
    requires Consistent(t) && cid !in t.clients
    ensures forall sid :: sid in t.services ==> Owner(t, sid) != cid
  {
  }

  /** client_connect: the new client is consistent with the tables and connected. */
  lemma ConnectKeeps(t: Tables, cid: int, remoteAddr: string, now: nat)
    requires Consistent(t) && cid >= 0 && cid !in t.clients
    ensures Consistent(Connect(t, cid, remoteAddr, now).tables)
    ensures OrphanRule(t) ==> OrphanRule(Connect(t, cid, remoteAddr, now).tables)
  {
    var c' := Create(cid).(active := Some(Cn.Create(remoteAddr, now)));
    UnknownOwnsNothing(t, cid);
    UpdateClient(t, cid, c', t.subs);
    if OrphanRule(t) {
      UpdateClientOrphans(t, cid, c', t.subs);
    }
  }

  /** client_reconnect: the fresh active connection holds nothing, so both invariants are kept. */
  lemma ReconnectKeeps(t: Tables, cid: int, remoteAddr: string, now: nat)
    requires Consistent(t) && cid in t.clients
    ensures Consistent(Reconnect(t, cid, remoteAddr, now).tables)
    ensures OrphanRule(t) ==> OrphanRule(Reconnect(t, cid, remoteAddr, now).tables)
  {
    var c := t.clients[cid];
    if !IsConnected(c) {
      var c' := c.(active := Some(Cn.Create(remoteAddr, now)));
      forall sid ensures ServiceConn(c', sid).Some? <==> sid in t.services && Owner(t, sid) == cid {
        assert ServiceConn(c', sid).Some? <==> ServiceConn(c, sid).Some?;
      }
      UpdateClient(t, cid, c', t.subs);
      if OrphanRule(t) {
        UpdateClientOrphans(t, cid, c', t.subs);
      }
    }
  }

  /**
   * Changing only the subscriptions of a connected client's active
   * connection keeps both invariants, when the new list has no duplicate and
   * the subscription table follows it.
   */
  lemma ActiveSubsKeep(t: Tables, cid: int, a': Cn.ConnValue, subs': map<int, Subs.SubValue>)
    requires Consistent(t) && cid in t.clients && IsConnected(t.clients[cid])
    requires a' == t.clients[cid].active.value.(subs := a'.subs) && Cn.Distinct(a'.subs)
    requires forall x :: x in subs' ==> x >= 0 && subs'[x].id == x
    requires forall x :: x in t.subs && t.subs[x].clientId != cid ==> x in subs' && subs'[x] == t.subs[x]
    requires forall x :: x in a'.subs ==> x in subs' && subs'[x].clientId == cid
    ensures Consistent(Tables(t.clients[cid := t.clients[cid].(active := Some(a'))], t.services, subs'))
    ensures OrphanRule(t) ==> OrphanRule(Tables(t.clients[cid := t.clients[cid].(active := Some(a'))], t.services, subs'))
  {
    var c := t.clients[cid];
    var c' := c.(active := Some(a'));
    forall sid ensures ServiceConn(c', sid).Some? <==> sid in t.services && Owner(t, sid) == cid {
      assert ServiceConn(c', sid).Some? <==> ServiceConn(c, sid).Some?;
    }
    assert ClientShape(c');
    UpdateClient(t, cid, c', subs');
    if OrphanRule(t) {
      UpdateClientOrphans(t, cid, c', subs');
    }
  }

  /** client_create_sub keeps the tables consistent and leaves the services alone. */
  lemma CreateSubKeeps(t: Tables, cid: int, subId: int, filter: Option<F.Filter>)
    requires Consistent(t) && cid in t.clients && IsConnected(t.clients[cid]) && subId >= 0
    ensures Consistent(CreateSub(t, cid, subId, filter).tables)
    ensures OrphanRule(t) ==> OrphanRule(CreateSub(t, cid, subId, filter).tables)
  {
    var c := t.clients[cid];
    if subId !in t.subs {
      var a' := Cn.AddSub(c.active.value, subId);
      assert Cn.Distinct(a'.subs);
      ActiveSubsKeep(t, cid, a', t.subs[subId := Subs.SubValue(subId, filter, cid)]);
    }
  }

  /** client_unsubscribe keeps the tables consistent and leaves the services alone. */
  lemma UnsubscribeKeeps(t: Tables, cid: int, subId: int)
    requires Consistent(t) && cid in t.clients && IsConnected(t.clients[cid])
    ensures Consistent(Unsubscribe(t, cid, subId).tables)
    ensures OrphanRule(t) ==> OrphanRule(Unsubscribe(t, cid, subId).tables)
  {
    var c := t.clients[cid];
    if subId in t.subs && subId in c.active.value.subs {
      var a' := Cn.DelSub(c.active.value, subId);
      var subs' := t.subs - {subId};
      Cn.WithoutDistinct(c.active.value.subs, subId);
      assert t.subs[subId].clientId == cid;
      forall x | x in a'.subs ensures x in subs' && subs'[x].clientId == cid {
        assert x in c.active.value.subs;
      }
      ActiveSubsKeep(t, cid, a', subs');
    }
  }

  // ---------------------------------------------------------------------
  // Which client holds which service

  /** Some connection of client `k` holds `sid`. */
  ghost predicate HeldBy(t: Tables, k: int, sid: int) {
    k in t.clients && ServiceConn(t.clients[k], sid).Some?
  }

  /** Ownership, stated through HeldBy: a service is held by its owner, and by nobody else. */
  lemma OwnershipFromHeld(t: Tables)
    requires forall sid :: sid in t.services ==> Published(t.services[sid]) && t.services[sid].current.Some?
    requires forall sid :: sid in t.services ==> HeldBy(t, Owner(t, sid), sid)
    requires forall k, sid :: HeldBy(t, k, sid) ==> sid in t.services && Owner(t, sid) == k
    ensures Ownership(t)
  {
    forall k, sid | k in t.clients && t.clients[k].active.Some? && sid in t.clients[k].active.value.services
      ensures sid in t.services && Owner(t, sid) == k
    {
      assert HeldBy(t, k, sid);
    }
    forall k, i, sid | k in t.clients && 0 <= i < |t.clients[k].inactive| && sid in t.clients[k].inactive[i].services
      ensures sid in t.services && Owner(t, sid) == k
    {
      assert ServiceConn(t.clients[k], sid).Some?;
      assert HeldBy(t, k, sid);
    }
  }

  lemma HeldFromOwnership(t: Tables)
    requires Ownership(t)
    ensures forall k, sid :: HeldBy(t, k, sid) ==> sid in t.services && Owner(t, sid) == k
  {
    forall k, sid | HeldBy(t, k, sid) ensures sid in t.services && Owner(t, sid) == k {
      match ServiceConn(t.clients[k], sid).value
      case Active =>
      case Inactive(i) =>
    }
  }

  /** Taking a service out of the one connection holding it: nothing else moves. */
  lemma ReleaseShape(c: ClientValue, w: Slot, sid: int)
    requires ClientShape(c) && ServiceConn(c, sid) == Some(w)
    ensures var r := Release(c, w, sid);
      ClientShape(r) && |r.inactive| == |c.inactive|
      && (r.active.Some? ==> r.active.value.subs == c.active.value.subs)
      && (forall x :: r.active.Some? && x in r.active.value.services ==> x != sid && x in c.active.value.services)
      && (forall i, x :: 0 <= i < |r.inactive| && x in r.inactive[i].services ==> x != sid && x in c.inactive[i].services)
      && (forall x :: x != sid ==> (ServiceConn(r, x).Some? <==> ServiceConn(c, x).Some?))
      && ServiceConn(r, sid).None?
  {
    var r := Release(c, w, sid);
    match w
    case Active =>
      Cn.WithoutDistinct(c.active.value.services, sid);
    case Inactive(i) =>
      Cn.WithoutDistinct(c.inactive[i].services, sid);
      assert forall j :: 0 <= j < |r.inactive| && j != i ==> r.inactive[j] == c.inactive[j];
  }

  /** Adding a service nobody holds to the active connection. */
  lemma AdoptShape(c: ClientValue, sid: int)
    requires ClientShape(c) && c.active.Some? && ServiceConn(c, sid).None?
    ensures var r := c.(active := Some(Cn.AddService(c.active.value, sid)));
      ClientShape(r)
      && (forall x :: ServiceConn(r, x).Some? <==> ServiceConn(c, x).Some? || x == sid)
  {
    var r := c.(active := Some(Cn.AddService(c.active.value, sid)));
    forall x ensures ServiceConn(r, x).Some? <==> ServiceConn(c, x).Some? || x == sid {
      assert x in r.active.value.services <==> x in c.active.value.services || x == sid;
    }
  }

  /** capture_service moves one service, from whichever connection held it to the capturer's active one. */
  lemma CaptureClients(t: Tables, cid: int, sid: int)
    requires Consistent(t) && sid in t.services && cid in t.clients && IsConnected(t.clients[cid])
    requires sid !in t.clients[cid].active.value.services
    ensures var r := Capture(t, cid, sid);
      (forall k :: k in r.clients ==>
         (ClientShape(r.clients[k]) && r.clients[k].clientId == t.clients[k].clientId
          && r.clients[k].active.Some? == t.clients[k].active.Some?
          && (r.clients[k].active.Some? ==> r.clients[k].active.value.subs == t.clients[k].active.value.subs)))
      && (forall k, x :: HeldBy(r, k, x) <==> (if x == sid then k == cid else HeldBy(t, k, x)))
  {
    CaptureShapes(t, cid, sid);
    CaptureHeld(t, cid, sid);
  }

  /** The parts of capture_service: the owner's connection lets go, the capturer's active one adopts. */
  lemma CaptureSteps(t: Tables, cid: int, sid: int) returns (v: int, victim: ClientValue, c: ClientValue)
    requires Consistent(t) && sid in t.services && cid in t.clients && IsConnected(t.clients[cid])
    requires sid !in t.clients[cid].active.value.services
    ensures v == Owner(t, sid) && v in t.clients && ServiceConn(t.clients[v], sid).Some?
    ensures victim == Release(t.clients[v], ServiceConn(t.clients[v], sid).value, sid)
    ensures c == t.clients[v := victim][cid] && c.active.Some? && ServiceConn(c, sid).None?
    ensures Capture(t, cid, sid).clients == t.clients[v := victim][cid := c.(active := Some(Cn.AddService(c.active.value, sid)))]
  {
    v := Owner(t, sid);
    var w := ServiceConn(t.clients[v], sid).value;
    victim := Release(t.clients[v], w, sid);
    ReleaseShape(t.clients[v], w, sid);
    HeldFromOwnership(t);
    c := t.clients[v := victim][cid];
    assert ServiceConn(c, sid).None? by {
      if v != cid {
        assert !HeldBy(t, cid, sid);
      }
    }
  }

  lemma CaptureShapes(t: Tables, cid: int, sid: int)
    requires Consistent(t) && sid in t.services && cid in t.clients && IsConnected(t.clients[cid])
    requires sid !in t.clients[cid].active.value.services
    ensures var r := Capture(t, cid, sid);
      forall k :: k in r.clients ==>
         (ClientShape(r.clients[k]) && r.clients[k].clientId == t.clients[k].clientId
          && r.clients[k].active.Some? == t.clients[k].active.Some?
          && (r.clients[k].active.Some? ==> r.clients[k].active.value.subs == t.clients[k].active.value.subs))
  {
    var v, victim, c := CaptureSteps(t, cid, sid);
    ReleaseShape(t.clients[v], ServiceConn(t.clients[v], sid).value, sid);
    AdoptShape(c, sid);
    var r := Capture(t, cid, sid);
    forall k | k in r.clients
      ensures ClientShape(r.clients[k]) && r.clients[k].clientId == t.clients[k].clientId
        && r.clients[k].active.Some? == t.clients[k].active.Some?
        && (r.clients[k].active.Some? ==> r.clients[k].active.value.subs == t.clients[k].active.value.subs)
    {
      if k == cid {
        assert r.clients[k] == c.(active := Some(Cn.AddService(c.active.value, sid)));
      } else if k == v {
        assert r.clients[k] == victim;
      } else {
        assert r.clients[k] == t.clients[k];
      }
    }
  }

  lemma CaptureHeld(t: Tables, cid: int, sid: int)
    requires Consistent(t) && sid in t.services && cid in t.clients && IsConnected(t.clients[cid])
    requires sid !in t.clients[cid].active.value.services
    ensures var r := Capture(t, cid, sid);
      forall k, x :: HeldBy(r, k, x) <==> (if x == sid then k == cid else HeldBy(t, k, x))
  {
    var v, victim, c := CaptureSteps(t, cid, sid);
    ReleaseShape(t.clients[v], ServiceConn(t.clients[v], sid).value, sid);
    HeldFromOwnership(t);
    AdoptShape(c, sid);
    HeldAfterCapture(t, Capture(t, cid, sid), cid, sid, v, victim, c);
  }

  /** Who holds what once the victim has let the service go and the capturer's active connection took it. */
  lemma HeldAfterCapture(t: Tables, r: Tables, cid: int, sid: int, v: int, victim: ClientValue, c: ClientValue)
    requires v in t.clients && cid in t.clients && c == t.clients[v := victim][cid]
    requires c.active.Some? && ServiceConn(c, sid).None?
    requires r.clients == t.clients[v := victim][cid := c.(active := Some(Cn.AddService(c.active.value, sid)))]
    requires forall x :: x != sid ==> (ServiceConn(victim, x).Some? <==> ServiceConn(t.clients[v], x).Some?)
    requires ServiceConn(victim, sid).None?
    requires forall x :: ServiceConn(c.(active := Some(Cn.AddService(c.active.value, sid))), x).Some?
                         <==> ServiceConn(c, x).Some? || x == sid
    requires forall k :: HeldBy(t, k, sid) ==> k == v
    ensures forall k, x :: HeldBy(r, k, x) <==> (if x == sid then k == cid else HeldBy(t, k, x))
  {
    forall k, x ensures HeldBy(r, k, x) <==> (if x == sid then k == cid else HeldBy(t, k, x)) {
      if k == cid {
        assert x != sid && v == cid ==> (ServiceConn(c, x).Some? <==> HeldBy(t, k, x));
      } else if k == v {
        assert r.clients[k] == victim;
      } else if k in t.clients {
        assert r.clients[k] == t.clients[k];
        assert x == sid ==> !HeldBy(t, k, x);
      }
    }
  }

  /**
   * Moving one service to a client and giving it a generation that client
   * owns: when the other services stay where they were and every client
   * keeps its shape, id and active subscriptions, the tables stay consistent.
   */
  lemma MoveKeeps(t: Tables, r: Tables, cid: int, sid: int, s': S.ServiceValue)
    requires KeysMatch(t) && Ownership(t) && SubsHeld(t) && sid >= 0
    requires r.clients.Keys == t.clients.Keys && r.subs == t.subs && r.services == t.services
    requires forall k :: k in r.clients ==>
               (ClientShape(r.clients[k]) && r.clients[k].clientId == t.clients[k].clientId
                && r.clients[k].active.Some? == t.clients[k].active.Some?
                && (r.clients[k].active.Some? ==> r.clients[k].active.value.subs == t.clients[k].active.value.subs))
    requires forall k, x :: HeldBy(r, k, x) <==> (if x == sid then k == cid else HeldBy(t, k, x))
    requires Published(s') && s'.id == sid && s'.current.Some? && s'.current.value.clientId == cid
    ensures Consistent(r.(services := t.services[sid := s']))
  {
    var t' := r.(services := t.services[sid := s']);
    HeldFromOwnership(t);
    assert KeysMatch(t');
    forall x | x in t'.services ensures HeldBy(t', Owner(t', x), x) {
      if x != sid {
        assert HeldBy(t, Owner(t, x), x);
      } else {
        assert HeldBy(r, cid, sid);
      }
    }
    forall k, x | HeldBy(t', k, x) ensures x in t'.services && Owner(t', x) == k {
      assert HeldBy(r, k, x);
    }
    OwnershipFromHeld(t');
    assert SubsHeld(t');
  }

  /**
   * capture_service followed by the commit of a generation owned by the
   * capturer: the tables stay consistent, the service is then held by the
   * capturer alone, and every other service stays where it was.
   */
  lemma CaptureKeeps(t: Tables, cid: int, sid: int, s': S.ServiceValue)
    requires Consistent(t) && sid in t.services && cid in t.clients && IsConnected(t.clients[cid])
    requires sid !in t.clients[cid].active.value.services
    requires Published(s') && s'.id == sid && s'.current.Some? && s'.current.value.clientId == cid
    ensures var t' := Capture(t, cid, sid).(services := t.services[sid := s']);
      Consistent(t')
      && (forall k :: HeldBy(t', k, sid) <==> k == cid)
      && (forall k, x :: x != sid ==> (HeldBy(t', k, x) <==> HeldBy(t, k, x)))
  {
    var r := Capture(t, cid, sid);
    CaptureClients(t, cid, sid);
    MoveKeeps(t, r, cid, sid, s');
    var t' := r.(services := t.services[sid := s']);
    forall k, x ensures HeldBy(t', k, x) <==> (if x == sid then k == cid else HeldBy(t, k, x)) {
      assert HeldBy(t', k, x) <==> HeldBy(r, k, x);
    }
  }

  /** capture_service takes nothing else from any connection, and adds only the service to the capturer's active one. */
  lemma CaptureConns(t: Tables, cid: int, sid: int)
    requires Consistent(t) && sid in t.services && cid in t.clients && IsConnected(t.clients[cid])
    requires sid !in t.clients[cid].active.value.services
    ensures var r := Capture(t, cid, sid);
      (forall k, x :: k in r.clients && r.clients[k].active.Some? && x in r.clients[k].active.value.services
         ==> (x == sid && k == cid) || (t.clients[k].active.Some? && x in t.clients[k].active.value.services))
      && (forall k :: k in r.clients ==> |r.clients[k].inactive| == |t.clients[k].inactive|)
      && (forall k, i, x ::
            (k in r.clients && 0 <= i < |r.clients[k].inactive| && x in r.clients[k].inactive[i].services)
            ==> x != sid && x in t.clients[k].inactive[i].services)
  {
    var r := Capture(t, cid, sid);
    forall k, x | k in r.clients && r.clients[k].active.Some? && x in r.clients[k].active.value.services
      ensures (x == sid && k == cid) || (t.clients[k].active.Some? && x in t.clients[k].active.value.services)
    {
      CaptureConnsOf(t, cid, sid, k);
    }
    forall k | k in r.clients ensures |r.clients[k].inactive| == |t.clients[k].inactive| {
      CaptureConnsOf(t, cid, sid, k);
    }
    forall k, i, x | k in r.clients && 0 <= i < |r.clients[k].inactive| && x in r.clients[k].inactive[i].services
      ensures x != sid && x in t.clients[k].inactive[i].services
    {
      CaptureConnsOf(t, cid, sid, k);
    }
  }

  /** CaptureConns for one client. */
  lemma CaptureConnsOf(t: Tables, cid: int, sid: int, k: int)
    requires Consistent(t) && sid in t.services && cid in t.clients && IsConnected(t.clients[cid])
    requires sid !in t.clients[cid].active.value.services
    requires k in Capture(t, cid, sid).clients
    ensures var a, b := Capture(t, cid, sid).clients[k], t.clients[k];
      (forall x :: a.active.Some? && x in a.active.value.services
         ==> (x == sid && k == cid) || (b.active.Some? && x in b.active.value.services))
      && |a.inactive| == |b.inactive|
      && (forall i, x :: 0 <= i < |a.inactive| && x in a.inactive[i].services ==> x != sid && x in b.inactive[i].services)
  {
    var v, victim, c := CaptureSteps(t, cid, sid);
    ReleaseShape(t.clients[v], ServiceConn(t.clients[v], sid).value, sid);
    var a := Capture(t, cid, sid).clients[k];
    if k == cid {
      assert a == c.(active := Some(Cn.AddService(c.active.value, sid)));
      forall x | x in a.active.value.services && x != sid ensures x in t.clients[k].active.value.services {
        assert x in c.active.value.services;
      }
    } else if k == v {
      assert a == victim;
    } else {
      assert a == t.clients[k];
    }
  }

  /** A captured service that is not an orphan keeps the orphan rule. */
  lemma CaptureOrphans(t: Tables, cid: int, sid: int, s': S.ServiceValue)
    requires Consistent(t) && OrphanRule(t) && sid in t.services && cid in t.clients && IsConnected(t.clients[cid])
    requires sid !in t.clients[cid].active.value.services
    requires Published(s') && s'.id == sid && s'.current.Some? && !S.IsOrphan(s')
    ensures OrphanRule(Capture(t, cid, sid).(services := t.services[sid := s']))
  {
    CaptureConns(t, cid, sid);
    var t' := Capture(t, cid, sid).(services := t.services[sid := s']);
    forall k, x | k in t'.clients && t'.clients[k].active.Some? && x in t'.clients[k].active.value.services
      ensures x in t'.services && t'.services[x].current.Some? && !S.IsOrphan(t'.services[x])
    {
      if x != sid {
        assert t.clients[k].active.Some? && x in t.clients[k].active.value.services;
      }
    }
    forall k, i, x | k in t'.clients && 0 <= i < |t'.clients[k].inactive| && x in t'.clients[k].inactive[i].services
      ensures x in t'.services && t'.services[x].current.Some? && S.IsOrphan(t'.services[x])
    {
      assert x != sid && x in t.clients[k].inactive[i].services;
    }
  }

  /** A new generation of a service, with the same owner, committed in place. */
  lemma UpdateServiceKeeps(t: Tables, sid: int, s': S.ServiceValue)
    requires Consistent(t) && sid in t.services
    requires Published(s') && s'.id == sid && s'.current.Some? && s'.current.value.clientId == Owner(t, sid)
    ensures Consistent(t.(services := t.services[sid := s']))
  {
    var t' := t.(services := t.services[sid := s']);
    forall x | x in t'.services
      ensures Published(t'.services[x]) && t'.services[x].id == x && Owner(t', x) == Owner(t, x)
    {
    }
    SameOwnersKeep(t, t');
  }

  /** New services under the same ids, each published and with the same owner, keep the tables consistent. */
  lemma SameOwnersKeep(t: Tables, t': Tables)
    requires Consistent(t) && t'.clients == t.clients && t'.subs == t.subs && t'.services.Keys == t.services.Keys
    requires forall x :: x in t'.services ==>
               Published(t'.services[x]) && t'.services[x].id == x && Owner(t', x) == Owner(t, x)
    ensures Consistent(t')
  {
    SameOwnersOwnership(t, t');
    assert KeysMatch(t') by {
      assert forall k :: k in t'.services ==> k in t.services;
    }
    assert SubsHeld(t') && forall k :: k in t'.clients ==> ClientShape(t'.clients[k]);
  }

  lemma SameOwnersOwnership(t: Tables, t': Tables)
    requires Ownership(t) && t'.clients == t.clients && t'.services.Keys == t.services.Keys
    requires forall x :: x in t'.services ==> Published(t'.services[x]) && Owner(t', x) == Owner(t, x)
    ensures Ownership(t')
  {
    forall x | x in t'.services
      ensures Owner(t', x) in t'.clients && ServiceConn(t'.clients[Owner(t', x)], x).Some?
    {
      assert Owner(t, x) in t.clients && ServiceConn(t.clients[Owner(t, x)], x).Some?;
    }
    forall k, x | k in t'.clients && t'.clients[k].active.Some? && x in t'.clients[k].active.value.services
      ensures x in t'.services && Owner(t', x) == k
    {
      assert x in t.services && Owner(t, x) == k;
    }
    forall k, i, x | k in t'.clients && 0 <= i < |t'.clients[k].inactive| && x in t'.clients[k].inactive[i].services
      ensures x in t'.services && Owner(t', x) == k
    {
      assert x in t.services && Owner(t, x) == k;
    }
  }

  /** A service its owner holds on the active connection may be made a non-orphan. */
  lemma UpdateServiceOrphans(t: Tables, cid: int, sid: int, s': S.ServiceValue)
    requires Consistent(t) && OrphanRule(t) && sid in t.services && cid in t.clients && IsConnected(t.clients[cid])
    requires sid in t.clients[cid].active.value.services
    requires s'.current.Some? && !S.IsOrphan(s')
    ensures OrphanRule(t.(services := t.services[sid := s']))
  {
    assert ClientShape(t.clients[cid]);
    assert forall k, i :: k in t.clients && 0 <= i < |t.clients[k].inactive| ==> sid !in t.clients[k].inactive[i].services;
  }

  /** A new service joins the table and the publisher's active connection. */
  lemma AddNewKeeps(t: Tables, cid: int, sid: int, s': S.ServiceValue)
    requires Consistent(t) && sid >= 0 && sid !in t.services && cid in t.clients && IsConnected(t.clients[cid])
    requires Published(s') && s'.id == sid && s'.current.Some? && s'.current.value.clientId == cid
    ensures var c := t.clients[cid];
      var t' := Tables(t.clients[cid := c.(active := Some(Cn.AddService(c.active.value, sid)))], t.services[sid := s'], t.subs);
      Consistent(t') && (!S.IsOrphan(s') && OrphanRule(t) ==> OrphanRule(t'))
  {
    var c := t.clients[cid];
    HeldFromOwnership(t);
    assert ServiceConn(c, sid).None? by {
      assert !HeldBy(t, cid, sid);
    }
    AdoptShape(c, sid);
    var r := t.(clients := t.clients[cid := c.(active := Some(Cn.AddService(c.active.value, sid)))]);
    forall k, x ensures HeldBy(r, k, x) <==> (if x == sid then k == cid else HeldBy(t, k, x)) {
      if x == sid && k != cid {
        assert !HeldBy(t, k, sid);
      }
    }
    MoveKeeps(t, r, cid, sid, s');
    if !S.IsOrphan(s') && OrphanRule(t) {
      AddNewOrphans(t, cid, sid, s');
    }
  }

  /** A new service on the publisher's active connection keeps the orphan rule when it is not an orphan. */
  lemma AddNewOrphans(t: Tables, cid: int, sid: int, s': S.ServiceValue)
    requires OrphanRule(t) && sid !in t.services && cid in t.clients && IsConnected(t.clients[cid])
    requires s'.current.Some? && !S.IsOrphan(s')
    ensures var c := t.clients[cid];
      OrphanRule(Tables(t.clients[cid := c.(active := Some(Cn.AddService(c.active.value, sid)))], t.services[sid := s'], t.subs))
  {
    var c := t.clients[cid];
    var t' := Tables(t.clients[cid := c.(active := Some(Cn.AddService(c.active.value, sid)))], t.services[sid := s'], t.subs);
    forall k, x | k in t'.clients && t'.clients[k].active.Some? && x in t'.clients[k].active.value.services
      ensures x in t'.services && t'.services[x].current.Some? && !S.IsOrphan(t'.services[x])
    {
      if k == cid && x != sid {
        assert x in c.active.value.services;
      }
    }
    assert ActiveNotOrphan(t');
    forall k, i, x | k in t'.clients && 0 <= i < |t'.clients[k].inactive| && x in t'.clients[k].inactive[i].services
      ensures x in t'.services && t'.services[x].current.Some? && S.IsOrphan(t'.services[x])
    {
      assert x in t.clients[k].inactive[i].services;
    }
    assert InactiveOrphan(t');
  }

  /**
   * client_publish keeps the tables consistent, as written and corrected;
   * the corrected publish also keeps the orphan rule.
   */
  lemma PublishKeeps(t: Tables, cid: int, sid: int, gen: int, props: seq<Pair>, ttl: int, corrected: bool)
    requires Consistent(t) && cid in t.clients && IsConnected(t.clients[cid])
    requires sid >= 0 && gen >= 0 && ttl >= 0
    ensures Consistent(PublishWith(t, cid, sid, gen, props, ttl, corrected).tables)
    ensures corrected && OrphanRule(t) ==> OrphanRule(PublishWith(t, cid, sid, gen, props, ttl, corrected).tables)
  {
    if sid in t.services {
      var cur := t.services[sid].current.value;
      if cur.clientId != cid {
        HeldFromOwnership(t);
        assert !HeldBy(t, cid, sid);
      }
      if gen == cur.generation {
        PublishSameKeeps(t, cid, sid, gen, props, ttl, corrected);
      } else if gen > cur.generation {
        PublishNewerKeeps(t, cid, sid, gen, props, ttl, corrected);
      }
    } else {
      var s' := S.Commit(Republished(S.AddBegin(S.Create(sid)), gen, props, ttl, cid)).0;
      AddNewKeeps(t, cid, sid, s');
    }
  }

  /** client_publish of the generation a known service already has. */
  lemma PublishSameKeeps(t: Tables, cid: int, sid: int, gen: int, props: seq<Pair>, ttl: int, corrected: bool)
    requires Consistent(t) && cid in t.clients && IsConnected(t.clients[cid])
    requires sid >= 0 && gen >= 0 && ttl >= 0
    requires sid in t.services && gen == t.services[sid].current.value.generation
    requires t.services[sid].current.value.clientId != cid ==> !HeldBy(t, cid, sid)
    ensures Consistent(PublishWith(t, cid, sid, gen, props, ttl, corrected).tables)
    ensures corrected && OrphanRule(t) ==> OrphanRule(PublishWith(t, cid, sid, gen, props, ttl, corrected).tables)
  {
    var c := t.clients[cid];
    var s := t.services[sid];
    var cur := s.current.value;
    var changed := cur.clientId != cid;
    var away := sid !in c.active.value.services;
    if !SameData(props, cur.props.value, corrected) || ttl != cur.ttl {
    } else if changed {
      var s' := S.Commit(S.SetClientId(S.SetNonOrphan(S.ModifyBegin(s)), cid)).0;
      CaptureKeeps(t, cid, sid, s');
      if corrected && OrphanRule(t) {
        CaptureOrphans(t, cid, sid, s');
      }
    } else if S.IsOrphan(s) {
      var s' := S.Commit(S.SetNonOrphan(S.ModifyBegin(s))).0;
      if corrected && away {
        CaptureKeeps(t, cid, sid, s');
        if OrphanRule(t) {
          CaptureOrphans(t, cid, sid, s');
        }
      } else {
        UpdateServiceKeeps(t, sid, s');
        if corrected && OrphanRule(t) {
          UpdateServiceOrphans(t, cid, sid, s');
        }
      }
    }
  }

  /** client_publish of a newer generation of a known service. */
  lemma PublishNewerKeeps(t: Tables, cid: int, sid: int, gen: int, props: seq<Pair>, ttl: int, corrected: bool)
    requires Consistent(t) && cid in t.clients && IsConnected(t.clients[cid])
    requires sid >= 0 && gen >= 0 && ttl >= 0
    requires sid in t.services && gen > t.services[sid].current.value.generation
    requires t.services[sid].current.value.clientId != cid ==> !HeldBy(t, cid, sid)
    ensures Consistent(PublishWith(t, cid, sid, gen, props, ttl, corrected).tables)
    ensures corrected && OrphanRule(t) ==> OrphanRule(PublishWith(t, cid, sid, gen, props, ttl, corrected).tables)
  {
    var c := t.clients[cid];
    var s := t.services[sid];
    var changed := s.current.value.clientId != cid;
    var away := sid !in c.active.value.services;
    var s' := S.Commit(Republished(S.ModifyBegin(s), gen, props, ttl, cid)).0;
    if changed || (corrected && away) {
      CaptureKeeps(t, cid, sid, s');
      if corrected && OrphanRule(t) {
        CaptureOrphans(t, cid, sid, s');
      }
    } else {
      UpdateServiceKeeps(t, sid, s');
      if corrected && OrphanRule(t) {
        UpdateServiceOrphans(t, cid, sid, s');
      }
    }
  }

  // ---------------------------------------------------------------------
  // Removing services

  /** The inactive list with one connection taken out keeps its shape. */
  lemma DropShape(c: ClientValue, i: nat)
    requires ClientShape(c) && i < |c.inactive|
    ensures ClientShape(c.(inactive := c.inactive[..i] + c.inactive[i + 1..]))
  {
    var l := c.inactive[..i] + c.inactive[i + 1..];
    assert forall j :: 0 <= j < |l| ==> l[j] == c.inactive[if j < i then j else j + 1];
  }

  /** The connections holding a service in a dropped list are those that held it before, but the dropped one. */
  lemma DropHolds(c: ClientValue, i: nat, x: int)
    requires i < |c.inactive| && x !in c.inactive[i].services
    ensures ServiceConn(c.(inactive := c.inactive[..i] + c.inactive[i + 1..]), x).Some? <==> ServiceConn(c, x).Some?
  {
    var l := c.inactive[..i] + c.inactive[i + 1..];
    assert forall j :: 0 <= j < |l| ==> l[j] == c.inactive[if j < i then j else j + 1];
    if ServiceConn(c, x).Some? && ServiceConn(c, x).value.Inactive? {
      var j := ServiceConn(c, x).value.index;
      assert x in l[if j < i then j else j - 1].services;
    }
  }

  /** remove_service on the owner's record: only the service goes, and the shape is kept. */
  lemma WithoutServiceShape(c: ClientValue, sid: int)
    requires ClientShape(c) && ServiceConn(c, sid).Some?
    ensures var r := WithoutService(c, sid);
      ClientShape(r) && r.clientId == c.clientId && r.active.Some? == c.active.Some?
      && (r.active.Some? ==>
            (r.active.value.subs == c.active.value.subs
             && forall x :: x in r.active.value.services <==> x in c.active.value.services && x != sid))
      && (forall x :: ServiceConn(r, x).Some? <==> x != sid && ServiceConn(c, x).Some?)
      && (IsStale(r) ==> forall x :: ServiceConn(r, x).None?)
  {
    var w := ServiceConn(c, sid).value;
    ReleaseShape(c, w, sid);
    var r := WithoutService(c, sid);
    match w
    case Active =>
      assert r == Release(c, w, sid);
    case Inactive(i) =>
      var rel := Release(c, w, sid);
      if Cn.IsStale(rel.inactive[i]) {
        DropShape(rel, i);
        assert r == rel.(inactive := rel.inactive[..i] + rel.inactive[i + 1..]);
        forall x ensures ServiceConn(r, x).Some? <==> ServiceConn(rel, x).Some? {
          DropHolds(rel, i, x);
        }
      } else {
        assert r == rel;
      }
  }

  /**
   * The owner letting go of a service that then leaves the table: the
   * owner's new record holds everything it held but that service, keeps
   * its shape and active subscriptions, and leaves the table only if it
   * holds nothing.
   */
  lemma LetGoKeeps(t: Tables, cid: int, sid: int, c': ClientValue, clients': map<int, ClientValue>)
    requires KeysMatch(t) && (forall k :: k in t.clients ==> ClientShape(t.clients[k])) && Ownership(t) && SubsHeld(t)
    requires cid in t.clients && sid in t.services && Owner(t, sid) == cid
    requires ClientShape(c') && c'.clientId == cid && c'.active.Some? == t.clients[cid].active.Some?
    requires c'.active.Some? ==> c'.active.value.subs == t.clients[cid].active.value.subs
    requires forall x :: ServiceConn(c', x).Some? <==> x != sid && ServiceConn(t.clients[cid], x).Some?
    requires (clients' == t.clients - {cid} && forall x :: ServiceConn(c', x).None?) || clients' == t.clients[cid := c']
    ensures Consistent(Tables(clients', t.services - {sid}, t.subs))
    ensures forall k, x :: HeldBy(Tables(clients', t.services - {sid}, t.subs), k, x) <==> x != sid && HeldBy(t, k, x)
  {
    HeldFromOwnership(t);
    var t' := Tables(clients', t.services - {sid}, t.subs);
    LetGoHeld(t, cid, sid, c', clients');
    assert KeysMatch(t');
    forall x | x in t'.services ensures HeldBy(t', Owner(t', x), x) {
      assert HeldBy(t, Owner(t, x), x);
    }
    OwnershipFromHeld(t');
    LetGoSubs(t, cid, c', t'.clients, t'.services);
  }

  /** Letting go of `sid`, held by `cid` alone, leaves every other service held where it was. */
  lemma LetGoHeld(t: Tables, cid: int, sid: int, c': ClientValue, clients': map<int, ClientValue>)
    requires cid in t.clients && forall k :: HeldBy(t, k, sid) ==> k == cid
    requires forall x :: ServiceConn(c', x).Some? <==> x != sid && ServiceConn(t.clients[cid], x).Some?
    requires (clients' == t.clients - {cid} && forall x :: ServiceConn(c', x).None?) || clients' == t.clients[cid := c']
    ensures forall k, x :: HeldBy(Tables(clients', t.services - {sid}, t.subs), k, x) <==> x != sid && HeldBy(t, k, x)
  {
    var t' := Tables(clients', t.services - {sid}, t.subs);
    forall k, x ensures HeldBy(t', k, x) <==> x != sid && HeldBy(t, k, x) {
      if k == cid {
        assert ServiceConn(c', x).Some? <==> x != sid && ServiceConn(t.clients[cid], x).Some?;
      } else if x == sid {
        assert !HeldBy(t, k, sid);
      }
    }
  }

  /** Replacing or dropping one client record whose active subscriptions stay keeps every subscription held. */
  lemma LetGoSubs(t: Tables, cid: int, c': ClientValue, clients': map<int, ClientValue>, services': map<int, S.ServiceValue>)
    requires SubsHeld(t) && cid in t.clients
    requires c'.active.Some? == t.clients[cid].active.Some?
    requires c'.active.Some? ==> c'.active.value.subs == t.clients[cid].active.value.subs
    requires clients' == t.clients - {cid} || clients' == t.clients[cid := c']
    ensures SubsHeld(Tables(clients', services', t.subs))
  {
    var t' := Tables(clients', services', t.subs);
    forall k, x | k in t'.clients && t'.clients[k].active.Some? && x in t'.clients[k].active.value.subs
      ensures x in t'.subs && t'.subs[x].clientId == k
    {
      assert t.clients[k].active.Some? && x in t.clients[k].active.value.subs;
    }
  }

  /** The orphan rule for every service but `sid`. */
  ghost predicate OrphanRuleBut(t: Tables, sid: int) {
    (forall k, x :: k in t.clients && t.clients[k].active.Some? && x in t.clients[k].active.value.services && x != sid
       ==> x in t.services && t.services[x].current.Some? && !S.IsOrphan(t.services[x]))
    && (forall k, i, x ::
          (k in t.clients && 0 <= i < |t.clients[k].inactive| && x in t.clients[k].inactive[i].services && x != sid)
          ==> x in t.services && t.services[x].current.Some? && S.IsOrphan(t.services[x]))
  }

  /** ... and the orphan rule holds afterwards when it held for every other service, since only that one moves. */
  lemma LetGoOrphans(t: Tables, cid: int, sid: int, c': ClientValue, clients': map<int, ClientValue>)
    requires OrphanRuleBut(t, sid) && (forall k :: k in t.clients ==> ClientShape(t.clients[k]))
    requires cid in t.clients && ClientShape(c')
    requires c'.active.Some? == t.clients[cid].active.Some?
    requires c'.active.Some? ==> forall x :: x in c'.active.value.services <==> x in t.clients[cid].active.value.services && x != sid
    requires clients' == t.clients - {cid} || clients' == t.clients[cid := c']
    requires forall k, x :: HeldBy(Tables(clients', t.services - {sid}, t.subs), k, x) <==> x != sid && HeldBy(t, k, x)
    ensures OrphanRule(Tables(clients', t.services - {sid}, t.subs))
  {
    LetGoActive(t, cid, sid, c', clients');
    LetGoInactive(t, cid, sid, c', clients');
  }

  lemma LetGoActive(t: Tables, cid: int, sid: int, c': ClientValue, clients': map<int, ClientValue>)
    requires OrphanRuleBut(t, sid)
    requires cid in t.clients && c'.active.Some? == t.clients[cid].active.Some?
    requires c'.active.Some? ==> forall x :: x in c'.active.value.services <==> x in t.clients[cid].active.value.services && x != sid
    requires clients' == t.clients - {cid} || clients' == t.clients[cid := c']
    requires forall k, x :: HeldBy(Tables(clients', t.services - {sid}, t.subs), k, x) <==> x != sid && HeldBy(t, k, x)
    ensures ActiveNotOrphan(Tables(clients', t.services - {sid}, t.subs))
  {
    var t' := Tables(clients', t.services - {sid}, t.subs);
    forall k, x | k in t'.clients && t'.clients[k].active.Some? && x in t'.clients[k].active.value.services
      ensures x in t'.services && t'.services[x].current.Some? && !S.IsOrphan(t'.services[x])
    {
      assert HeldBy(t', k, x);
    }
  }

  lemma LetGoInactive(t: Tables, cid: int, sid: int, c': ClientValue, clients': map<int, ClientValue>)
    requires OrphanRuleBut(t, sid) && ClientShape(c')
    requires cid in t.clients && c'.active.Some? == t.clients[cid].active.Some?
    requires c'.active.Some? ==> forall x :: x in c'.active.value.services <==> x in t.clients[cid].active.value.services && x != sid
    requires clients' == t.clients - {cid} || clients' == t.clients[cid := c']
    requires forall k, x :: HeldBy(Tables(clients', t.services - {sid}, t.subs), k, x) <==> x != sid && HeldBy(t, k, x)
    ensures InactiveOrphan(Tables(clients', t.services - {sid}, t.subs))
  {
    var c := t.clients[cid];
    var t' := Tables(clients', t.services - {sid}, t.subs);
    forall k, i, x | k in t'.clients && 0 <= i < |t'.clients[k].inactive| && x in t'.clients[k].inactive[i].services
      ensures x in t'.services && t'.services[x].current.Some? && S.IsOrphan(t'.services[x])
    {
      assert HeldBy(t', k, x);
      if k == cid {
        assert ServiceConn(c, x).Some? && (c.active.Some? ==> x !in c.active.value.services);
        var j := ServiceConn(c, x).value.index;
        assert x in c.inactive[j].services;
      }
    }
  }

  /** remove_service keeps the tables consistent and the orphan rule true. */
  lemma RemoveServiceKeeps(t: Tables, cid: int, sid: int)
    requires Consistent(t) && sid in t.services && Owner(t, sid) == cid
    ensures ServiceConn(t.clients[cid], sid).Some?
    ensures Consistent(RemoveService(t, cid, sid).0)
    ensures OrphanRuleBut(t, sid) ==> OrphanRule(RemoveService(t, cid, sid).0)
  {
    var c := t.clients[cid];
    WithoutServiceShape(c, sid);
    var c' := WithoutService(c, sid);
    var clients' := if IsStale(c') then t.clients - {cid} else t.clients[cid := c'];
    LetGoKeeps(t, cid, sid, c', clients');
    if OrphanRuleBut(t, sid) {
      LetGoOrphans(t, cid, sid, c', clients');
    }
  }

  /** client_purge_orphan keeps the tables consistent and the orphan rule true. */
  lemma PurgeOrphanKeeps(t: Tables, cid: int, sid: int)
    requires Consistent(t) && sid in t.services && Owner(t, sid) == cid
    ensures Consistent(PurgeOrphan(t, cid, sid).tables)
    ensures OrphanRule(t) ==> OrphanRule(PurgeOrphan(t, cid, sid).tables)
  {
    RemoveServiceKeeps(t, cid, sid);
    if OrphanRule(t) {
      RuleBut(t, sid);
    }
  }

  /** The orphan rule for all services holds for all but one. */
  lemma RuleBut(t: Tables, sid: int)
    requires OrphanRule(t)
    ensures OrphanRuleBut(t, sid)
  {
  }

  /** Capturing a service leaves every other service on the same kind of connection. */
  lemma CaptureOrphansBut(t: Tables, cid: int, sid: int, s': S.ServiceValue)
    requires Consistent(t) && OrphanRule(t) && sid in t.services && cid in t.clients && IsConnected(t.clients[cid])
    requires sid !in t.clients[cid].active.value.services
    ensures OrphanRuleBut(Capture(t, cid, sid).(services := t.services[sid := s']), sid)
  {
    CaptureConns(t, cid, sid);
  }

  /** Changing one service leaves the orphan rule standing for the others. */
  lemma UpdateServiceBut(t: Tables, sid: int, s': S.ServiceValue)
    requires OrphanRule(t)
    ensures OrphanRuleBut(t.(services := t.services[sid := s']), sid)
  {
  }

  /** The republish client_unpublish does first, by the caller, of a service owned by another client. */
  lemma UnpublishCaptured(t: Tables, cid: int, sid: int, s': S.ServiceValue)
    requires Consistent(t) && cid in t.clients && IsConnected(t.clients[cid]) && sid in t.services
    requires Owner(t, sid) != cid
    requires Published(s') && s'.id == sid && s'.current.Some? && s'.current.value.clientId == cid
    ensures sid !in t.clients[cid].active.value.services
    ensures var t1 := Capture(t, cid, sid).(services := t.services[sid := s']);
      Consistent(t1) && Owner(t1, sid) == cid && (OrphanRule(t) ==> OrphanRuleBut(t1, sid))
  {
    HeldFromOwnership(t);
    assert !HeldBy(t, cid, sid);
    CaptureKeeps(t, cid, sid, s');
    if OrphanRule(t) {
      CaptureOrphansBut(t, cid, sid, s');
    }
  }

  /** client_unpublish keeps the tables consistent and the orphan rule true. */
  lemma UnpublishKeeps(t: Tables, cid: int, sid: int)
    requires Consistent(t) && cid in t.clients && IsConnected(t.clients[cid])
    ensures Consistent(Unpublish(t, cid, sid).tables)
    ensures OrphanRule(t) ==> OrphanRule(Unpublish(t, cid, sid).tables)
  {
    if sid in t.services {
      var s := t.services[sid];
      var changed := Owner(t, sid) != cid;
      var orphan := S.IsOrphan(s);
      if changed || orphan {
        var b := S.SetNonOrphan(S.ModifyBegin(s));
        var b' := if changed then S.SetClientId(b, cid) else b;
        var b'' := if orphan then S.SetNonOrphan(b') else b';
        var s' := S.Commit(b'').0;
        var t1 := if changed then Capture(t, cid, sid).(services := t.services[sid := s'])
                  else t.(services := t.services[sid := s']);
        if changed {
          UnpublishCaptured(t, cid, sid, s');
        } else {
          UpdateServiceKeeps(t, sid, s');
          if OrphanRule(t) {
            UpdateServiceBut(t, sid, s');
          }
        }
        assert Unpublish(t, cid, sid).tables == RemoveService(t1, cid, sid).0;
        RemoveServiceKeeps(t1, cid, sid);
      } else {
        RemoveServiceKeeps(t, cid, sid);
        if OrphanRule(t) {
          RuleBut(t, sid);
        }
      }
    }
  }

  // ---------------------------------------------------------------------
  // Disconnecting

  /** The client record client_disconnect leaves: no active connection, the old one appended unless stale. */
  lemma InactivatedShape(c: ClientValue, now: nat)
    requires ClientShape(c) && IsConnected(c)
    ensures var a' := Cn.ClearSubs(Cn.MarkDisconnected(c.active.value, now));
      var c' := c.(active := None, inactive := c.inactive + if Cn.IsStale(a') then [] else [a']);
      ClientShape(c')
      && (forall x :: ServiceConn(c', x).Some? <==> ServiceConn(c, x).Some?)
      && (IsStale(c') ==> forall x :: ServiceConn(c', x).None?)
      && (forall i, x :: 0 <= i < |c'.inactive| && x in c'.inactive[i].services ==>
            (i < |c.inactive| && x in c.inactive[i].services) || x in c.active.value.services)
  {
    var a' := Cn.ClearSubs(Cn.MarkDisconnected(c.active.value, now));
    var c' := c.(active := None, inactive := c.inactive + if Cn.IsStale(a') then [] else [a']);
    if Cn.IsStale(a') {
      assert c'.inactive == c.inactive;
      assert c.active.value.services == [];
      forall x ensures ServiceConn(c', x).Some? <==> ServiceConn(c, x).Some? {
        assert ServiceConn(c', x) == ServiceConn(c.(active := None), x);
      }
    } else {
      assert c'.inactive == c.inactive + [a'];
      assert forall i :: 0 <= i < |c.inactive| ==> c'.inactive[i] == c.inactive[i];
      assert c'.inactive[|c.inactive|] == a';
      assert ClientShape(c');
      forall x ensures ServiceConn(c', x).Some? <==> ServiceConn(c, x).Some? {
        if x in c.active.value.services {
          assert x in c'.inactive[|c.inactive|].services;
        }
      }
    }
  }

  /**
   * A client going inactive: its record keeps what it holds (or leaves the
   * table holding nothing), no service changes owner, and only its own
   * subscriptions leave the table.
   */
  lemma InactivateKeeps(t: Tables, cid: int, c': ClientValue, clients': map<int, ClientValue>,
                        services': map<int, S.ServiceValue>, subs': map<int, Subs.SubValue>)
    requires KeysMatch(t) && (forall k :: k in t.clients ==> ClientShape(t.clients[k])) && Ownership(t) && SubsHeld(t)
    requires cid in t.clients && ClientShape(c') && c'.clientId == cid && c'.active.None?
    requires forall x :: ServiceConn(c', x).Some? <==> ServiceConn(t.clients[cid], x).Some?
    requires (clients' == t.clients - {cid} && forall x :: ServiceConn(c', x).None?) || clients' == t.clients[cid := c']
    requires services'.Keys == t.services.Keys
    requires forall x :: x in services' ==>
               (Published(services'[x]) && services'[x].id == t.services[x].id
                && services'[x].current.value.clientId == Owner(t, x))
    requires forall x :: x in subs' ==> x in t.subs && subs'[x] == t.subs[x]
    requires forall x :: x in t.subs && t.subs[x].clientId != cid ==> x in subs'
    ensures Consistent(Tables(clients', services', subs'))
    ensures forall k, x :: HeldBy(Tables(clients', services', subs'), k, x) <==> HeldBy(t, k, x)
  {
    HeldFromOwnership(t);
    var t' := Tables(clients', services', subs');
    forall k, x ensures HeldBy(t', k, x) <==> HeldBy(t, k, x) {
    }
    assert KeysMatch(t');
    forall x | x in t'.services ensures HeldBy(t', Owner(t', x), x) {
      assert HeldBy(t, Owner(t, x), x);
    }
    OwnershipFromHeld(t');
    InactivateSubs(t, cid, c', t');
    assert forall k :: k in t'.clients ==> ClientShape(t'.clients[k]);
  }

  /** With the active connection of `cid` gone, the subscriptions that stay are still held. */
  lemma InactivateSubs(t: Tables, cid: int, c': ClientValue, t': Tables)
    requires SubsHeld(t) && cid in t.clients && c'.active.None?
    requires t'.clients == t.clients - {cid} || t'.clients == t.clients[cid := c']
    requires forall x :: x in t'.subs ==> x in t.subs && t'.subs[x] == t.subs[x]
    requires forall x :: x in t.subs && t.subs[x].clientId != cid ==> x in t'.subs
    ensures SubsHeld(t')
  {
    forall k, x | k in t'.clients && t'.clients[k].active.Some? && x in t'.clients[k].active.value.subs
      ensures x in t'.subs && t'.subs[x].clientId == k
    {
      assert k != cid && t'.clients[k] == t.clients[k];
      assert x in t.subs && t.subs[x].clientId == k;
    }
  }

  /** client_disconnect keeps the tables consistent. */
  lemma DisconnectKeeps(t: Tables, cid: int, now: nat)
    requires Consistent(t) && cid in t.clients && IsConnected(t.clients[cid])
    ensures Consistent(Disconnect(t, cid, now).tables)
    ensures forall k, x :: HeldBy(Disconnect(t, cid, now).tables, k, x) <==> HeldBy(t, k, x)
  {
    var c := t.clients[cid];
    var a := Cn.MarkDisconnected(c.active.value, now);
    var subs' := t.subs - set x | x in a.subs;
    var a' := Cn.ClearSubs(a);
    var orphaned := OrphanAll(t.services, a'.services, now);
    var c' := c.(active := None, inactive := c.inactive + if Cn.IsStale(a') then [] else [a']);
    var clients' := if IsStale(c') then t.clients - {cid} else t.clients[cid := c'];
    InactivatedShape(c, now);
    forall x | x in a'.services ensures x in t.services && Published(t.services[x]) {
      assert x in c.active.value.services;
    }
    forall x | x in a.subs ensures x in t.subs && t.subs[x].clientId == cid {
      assert x in c.active.value.subs;
    }
    InactivateKeeps(t, cid, c', clients', orphaned.0, subs');
  }

  /** The orphan rule after a client goes inactive: exactly the services of its old active connection became orphans. */
  lemma InactivateOrphans(t: Tables, cid: int, c': ClientValue, clients': map<int, ClientValue>,
                          services': map<int, S.ServiceValue>, subs': map<int, Subs.SubValue>)
    requires OrphanRule(t) && Ownership(t) && (forall k :: k in t.clients ==> ClientShape(t.clients[k]))
    requires cid in t.clients && IsConnected(t.clients[cid]) && c'.active.None?
    requires forall i, x :: 0 <= i < |c'.inactive| && x in c'.inactive[i].services ==>
               (i < |t.clients[cid].inactive| && x in t.clients[cid].inactive[i].services)
               || x in t.clients[cid].active.value.services
    requires clients' == t.clients - {cid} || clients' == t.clients[cid := c']
    requires services'.Keys == t.services.Keys
    requires forall x :: x in services' && x !in t.clients[cid].active.value.services ==> services'[x] == t.services[x]
    requires forall x :: x in t.clients[cid].active.value.services ==>
               (x in services' && services'[x].current.Some? && S.IsOrphan(services'[x]))
    ensures OrphanRule(Tables(clients', services', subs'))
  {
    InactivateActiveSide(t, cid, c', clients', services', subs');
    InactivateInactiveSide(t, cid, c', clients', services', subs');
  }

  /** ... the remaining active connections belong to other clients, whose services are unchanged ... */
  lemma InactivateActiveSide(t: Tables, cid: int, c': ClientValue, clients': map<int, ClientValue>,
                             services': map<int, S.ServiceValue>, subs': map<int, Subs.SubValue>)
    requires ActiveNotOrphan(t) && Ownership(t)
    requires cid in t.clients && IsConnected(t.clients[cid]) && c'.active.None?
    requires clients' == t.clients - {cid} || clients' == t.clients[cid := c']
    requires services'.Keys == t.services.Keys
    requires forall x :: x in services' && x !in t.clients[cid].active.value.services ==> services'[x] == t.services[x]
    ensures ActiveNotOrphan(Tables(clients', services', subs'))
  {
    var t' := Tables(clients', services', subs');
    forall k, x | k in t'.clients && t'.clients[k].active.Some? && x in t'.clients[k].active.value.services
      ensures x in t'.services && t'.services[x].current.Some? && !S.IsOrphan(t'.services[x])
    {
      assert k != cid && t'.clients[k] == t.clients[k];
    }
  }

  /** ... and every inactive connection holds orphans: old ones, or those just orphaned. */
  lemma InactivateInactiveSide(t: Tables, cid: int, c': ClientValue, clients': map<int, ClientValue>,
                               services': map<int, S.ServiceValue>, subs': map<int, Subs.SubValue>)
    requires InactiveOrphan(t)
    requires cid in t.clients && IsConnected(t.clients[cid])
    requires forall i, x :: 0 <= i < |c'.inactive| && x in c'.inactive[i].services ==>
               (i < |t.clients[cid].inactive| && x in t.clients[cid].inactive[i].services)
               || x in t.clients[cid].active.value.services
    requires clients' == t.clients - {cid} || clients' == t.clients[cid := c']
    requires services'.Keys == t.services.Keys
    requires forall x :: x in services' && x !in t.clients[cid].active.value.services ==> services'[x] == t.services[x]
    requires forall x :: x in t.clients[cid].active.value.services ==>
               (x in services' && services'[x].current.Some? && S.IsOrphan(services'[x]))
    ensures InactiveOrphan(Tables(clients', services', subs'))
  {
    var c := t.clients[cid];
    var t' := Tables(clients', services', subs');
    forall k, i, x | k in t'.clients && 0 <= i < |t'.clients[k].inactive| && x in t'.clients[k].inactive[i].services
      ensures x in t'.services && t'.services[x].current.Some? && S.IsOrphan(t'.services[x])
    {
      if k != cid {
        assert t'.clients[k] == t.clients[k];
      } else if x !in c.active.value.services {
        assert i < |c.inactive| && x in c.inactive[i].services;
      }
    }
  }

  /** client_disconnect keeps the orphan rule: the services it held over the lost connection become orphans. */
  lemma DisconnectOrphans(t: Tables, cid: int, now: nat)
    requires Consistent(t) && OrphanRule(t) && cid in t.clients && IsConnected(t.clients[cid])
    ensures OrphanRule(Disconnect(t, cid, now).tables)
  {
    var c := t.clients[cid];
    var a := Cn.MarkDisconnected(c.active.value, now);
    var subs' := t.subs - set x | x in a.subs;
    var a' := Cn.ClearSubs(a);
    var orphaned := OrphanAll(t.services, a'.services, now);
    var c' := c.(active := None, inactive := c.inactive + if Cn.IsStale(a') then [] else [a']);
    var clients' := if IsStale(c') then t.clients - {cid} else t.clients[cid := c'];
    InactivatedShape(c, now);
    InactivateOrphans(t, cid, c', clients', orphaned.0, subs');
  }
}
