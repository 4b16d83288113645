// The service-discovery engine (src/sd/sd.c): the entry points the protocol
// layer calls. Each looks the client up, runs the client operation on the
// database, and hands every change it reports to service_changed, which
// notifies each subscription and keeps the orphan timers.
module ServiceDiscovery {
  import opened Wrappers
  import opened Properties
  import opened Clients
  import opened Db
  import opened ClientSpec
  import opened SdOrphans
  import Cn = Conns
  import S = Services
  import Subs
  import SdErr
  import F = Filter
  import FP = FilterParse
  import FilterInput
  import ClientOps
  import ClientProps

  /** One invocation of a subscription's match callback. */
  datatype Delivery = Delivery(subId: int, matchType: Subs.MatchType, service: S.ServiceValue)

  /**
   * The callbacks one change causes: one for each subscription whose
   * sub_notify fires, with the match type it decides, and none other.
   */
  ghost predicate NotifiedExactly(ds: seq<Delivery>, subs: map<int, Subs.SubValue>, c: Change)
    requires Reported(c)
  {
    (forall d :: d in ds ==>
       d.subId in subs && d.service == c.service && Subs.Notify(subs[d.subId], c.kind, c.service) == Some(d.matchType))
    && (forall id :: id in subs && Subs.Notify(subs[id], c.kind, c.service).Some? ==>
          exists d :: d in ds && d.subId == id)
    && (forall i, j :: 0 <= i < j < |ds| ==> ds[i].subId != ds[j].subId)
  }

  /** The callbacks of a sequence of changes, change by change. */
  ghost predicate AllNotified(dss: seq<seq<Delivery>>, subs: map<int, Subs.SubValue>, cs: seq<Change>) {
    |dss| == |cs| && forall i :: 0 <= i < |cs| ==> Reported(cs[i]) && NotifiedExactly(dss[i], subs, cs[i])
  }

  class Sd {
    const db: Db
    /** The ids of the orphan map; the timers' deadlines are not modelled. */
    var orphans: set<int>

    /** The database is consistent, keeps the orphan rule, and there is a timer for exactly each orphan. */
    ghost predicate Valid()
      reads this, db
    {
      Consistent(db.State()) && OrphanRule(db.State()) && orphans == OrphanIds(db.services)
    }

    /** sd_create. */
    constructor ()
      ensures Valid() && db.State() == Tables(map[], map[], map[]) && orphans == {}
    {
      db := new Db();
      orphans := {};
      EmptyConsistent();
    }

    /** service_changed: every subscription hears of the change, then maintain_orphans keeps the timers. */
    method ServiceChanged(c: Change) returns (ds: seq<Delivery>)
      requires Reported(c) && ApplyTimer(orphans, c).Some?
      modifies this
      ensures orphans == ApplyTimer(old(orphans), c).value
      ensures NotifiedExactly(ds, db.subs, c)
    {
      var ids := db.SubIds();
      ds := [];
      var i := 0;
      while i < |ids|
        invariant 0 <= i <= |ids| && orphans == old(orphans)
        invariant forall d :: d in ds ==>
                    d.subId in ids[..i] && d.subId in db.subs && d.service == c.service
                    && Subs.Notify(db.subs[d.subId], c.kind, c.service) == Some(d.matchType)
        invariant forall id :: id in db.subs && id in ids[..i] && Subs.Notify(db.subs[id], c.kind, c.service).Some? ==>
                    exists d :: d in ds && d.subId == id
        invariant forall k, j :: 0 <= k < j < |ds| ==> ds[k].subId != ds[j].subId
      {
        var id := ids[i];
        assert id !in ids[..i];
        assert ids[..i + 1] == ids[..i] + [id];
        var sub := db.GetSub(id);
        var m := Subs.Notify(sub.value, c.kind, c.service);
        if m.Some? {
          ds := ds + [Delivery(id, m.value, c.service)];
        }
        i := i + 1;
      }
      assert ids[..i] == ids;
      var id := c.service.id;
      match MaintainOrphans(c) {
        case AddTimer => orphans := orphans + {id};
        case RemoveTimer => orphans := orphans - {id};
        case UpdateTimer =>
        case NoTimer =>
      }
    }

    /** service_changed for each reported change, in order. */
    method ServiceChanges(cs: seq<Change>) returns (dss: seq<seq<Delivery>>)
      requires Timers(orphans, cs).Some?
      modifies this
      ensures orphans == Timers(old(orphans), cs).value
      ensures AllNotified(dss, db.subs, cs)
    {
      dss := [];
      var i := 0;
      while i < |cs|
        invariant 0 <= i <= |cs|
        invariant Timers(orphans, cs[i..]) == Timers(old(orphans), cs)
        invariant |dss| == i && forall k :: 0 <= k < i ==> Reported(cs[k]) && NotifiedExactly(dss[k], db.subs, cs[k])
      {
        assert cs[i..][0] == cs[i] && cs[i..][1..] == cs[i + 1..];
        var ds := ServiceChanged(cs[i]);
        dss := dss + [ds];
        i := i + 1;
      }
    }

    /** sd_client_connect: a new client is created and connected; a known one reconnects. */
    method ClientConnect(cid: int, remoteAddr: string, now: nat) returns (rc: int)
      requires Valid() && cid >= 0
      modifies db
      ensures Valid()
      ensures cid !in old(db.clients) ==>
                rc == SdErr.OK && db.State() == Connect(old(db.State()), cid, remoteAddr, now).tables
      ensures cid in old(db.clients) ==>
                Outcome(db.State(), rc, []) == Reconnect(old(db.State()), cid, remoteAddr, now)
    {
      ghost var t := db.State();
      var known := db.HasClient(cid);
      if !known {
        ClientOps.ClientConnect(db, cid, remoteAddr, now);
        ClientProps.ConnectKeeps(t, cid, remoteAddr, now);
        return SdErr.OK;
      }
      rc := ClientOps.ClientReconnect(db, cid, remoteAddr, now);
      ClientProps.ReconnectKeeps(t, cid, remoteAddr, now);
    }

    /** sd_client_disconnect: an unknown client is an error; the services of a known one become orphans. */
    method ClientDisconnect(cid: int, now: nat) returns (rc: int, notes: seq<seq<Delivery>>)
      requires Valid() && (cid in db.clients ==> IsConnected(db.clients[cid]))
      modifies this, db
      ensures Valid()
      ensures cid !in old(db.clients) ==>
                rc == SdErr.NO_SUCH_CLIENT && db.State() == old(db.State()) && notes == []
      ensures cid in old(db.clients) ==>
                var o := Disconnect(old(db.State()), cid, now);
                rc == o.rc && db.State() == o.tables && AllNotified(notes, db.subs, o.changes)
    {
      var known := db.HasClient(cid);
      if !known {
        return SdErr.NO_SUCH_CLIENT, [];
      }
      ghost var t := db.State();
      var changes := ClientOps.ClientDisconnect(db, cid, now);
      ClientProps.DisconnectKeeps(t, cid, now);
      ClientProps.DisconnectOrphans(t, cid, now);
      DisconnectReplays(t, cid, now);
      ReplayTimers(t.services, changes);
      notes := ServiceChanges(changes);
      rc := SdErr.OK;
    }

    /** sd_publish. */
    method Publish(cid: int, sid: int, gen: int, props: seq<Pair>, ttl: int) returns (rc: int, notes: seq<seq<Delivery>>)
      requires Valid() && (cid in db.clients ==> IsConnected(db.clients[cid]))
      requires sid >= 0 && gen >= 0 && ttl >= 0
      modifies this, db
      ensures Valid()
      ensures cid !in old(db.clients) ==>
                rc == SdErr.NO_SUCH_CLIENT && db.State() == old(db.State()) && notes == []
      ensures cid in old(db.clients) ==>
                var o := ClientSpec.Publish(old(db.State()), cid, sid, gen, props, ttl);
                rc == o.rc && db.State() == o.tables && AllNotified(notes, db.subs, o.changes)
    {
      var known := db.HasClient(cid);
      if !known {
        return SdErr.NO_SUCH_CLIENT, [];
      }
      ghost var t := db.State();
      var changes;
      rc, changes := ClientOps.ClientPublish(db, cid, sid, gen, props, ttl);
      ClientProps.PublishKeeps(t, cid, sid, gen, props, ttl, true);
      PublishReplays(t, cid, sid, gen, props, ttl);
      ReplayTimers(t.services, changes);
      notes := ServiceChanges(changes);
    }

    /** sd_unpublish. */
    method Unpublish(cid: int, sid: int) returns (rc: int, notes: seq<seq<Delivery>>)
      requires Valid() && (cid in db.clients ==> IsConnected(db.clients[cid]))
      modifies this, db
      ensures Valid()
      ensures cid !in old(db.clients) ==>
                rc == SdErr.NO_SUCH_CLIENT && db.State() == old(db.State()) && notes == []
      ensures cid in old(db.clients) ==>
                var o := ClientSpec.Unpublish(old(db.State()), cid, sid);
                rc == o.rc && db.State() == o.tables && AllNotified(notes, db.subs, o.changes)
    {
      var known := db.HasClient(cid);
      if !known {
        return SdErr.NO_SUCH_CLIENT, [];
      }
      ghost var t := db.State();
      var changes;
      rc, changes := ClientOps.ClientUnpublish(db, cid, sid);
      ClientProps.UnpublishKeeps(t, cid, sid);
      UnpublishReplays(t, cid, sid);
      ReplayTimers(t.services, changes);
      notes := ServiceChanges(changes);
    }

    /** The orphan timer of `sid` fired (orphan_timeout_cb, purge_orphan): its owner removes it. */
    method OrphanTimeout(sid: int) returns (notes: seq<seq<Delivery>>)
      requires Valid() && sid in orphans
      modifies this, db
      ensures Valid() && sid !in db.services && sid !in orphans
      ensures var t := old(db.State());
              var o := PurgeOrphan(t, Owner(t, sid), sid);
              db.State() == o.tables && AllNotified(notes, db.subs, o.changes)
    {
      ghost var t := db.State();
      var s := db.GetService(sid);
      var owner := s.value.current.value.clientId;
      var change := ClientOps.ClientPurgeOrphan(db, owner, sid);
      ClientProps.PurgeOrphanKeeps(t, owner, sid);
      PurgeReplays(t, owner, sid);
      ReplayTimers(t.services, [change]);
      notes := ServiceChanges([change]);
    }

    /**
     * sd_create_sub: an unknown client, then a filter that does not parse,
     * are errors that change nothing; otherwise client_create_sub.
     */
    method CreateSub(cid: int, subId: int, filter: Option<string>) returns (rc: int)
      requires Valid() && subId >= 0 && (cid in db.clients ==> IsConnected(db.clients[cid]))
      modifies db
      ensures Valid()
      ensures cid !in old(db.clients) ==> rc == SdErr.NO_SUCH_CLIENT && db.State() == old(db.State())
      ensures cid in old(db.clients) && filter.Some? && FP.ParseFilter(filter.value).None? ==>
                rc == SdErr.INVALID_FILTER && db.State() == old(db.State())
      ensures cid in old(db.clients) && (filter.None? || FP.ParseFilter(filter.value).Some?) ==>
                var f := if filter.None? then None else FP.ParseFilter(filter.value);
                Outcome(db.State(), rc, []) == ClientSpec.CreateSub(old(db.State()), cid, subId, f)
    {
      var known := db.HasClient(cid);
      if !known {
        return SdErr.NO_SUCH_CLIENT;
      }
      var f: Option<F.Filter> := None;
      if filter.Some? {
        f := FilterInput.FilterParse(filter.value);
        if f.None? {
          return SdErr.INVALID_FILTER;
        }
      }
      ghost var t := db.State();
      rc := ClientOps.ClientCreateSub(db, cid, subId, f);
      ClientProps.CreateSubKeeps(t, cid, subId, f);
    }

    /** sd_unsubscribe. */
    method Unsubscribe(cid: int, subId: int) returns (rc: int)
      requires Valid() && (cid in db.clients ==> IsConnected(db.clients[cid]))
      modifies db
      ensures Valid()
      ensures cid !in old(db.clients) ==> rc == SdErr.NO_SUCH_CLIENT && db.State() == old(db.State())
      ensures cid in old(db.clients) ==>
                Outcome(db.State(), rc, []) == ClientSpec.Unsubscribe(old(db.State()), cid, subId)
    {
      var known := db.HasClient(cid);
      if !known {
        return SdErr.NO_SUCH_CLIENT;
      }
      ghost var t := db.State();
      rc := ClientOps.ClientUnsubscribe(db, cid, subId);
      ClientProps.UnsubscribeKeeps(t, cid, subId);
    }

    /**
     * sd_activate_sub (client_activate_sub): the new subscription hears of
     * every service already published as an addition.
     */
    method ActivateSub(cid: int, subId: int) returns (ds: seq<Delivery>)
      requires Valid() && cid in db.clients && IsConnected(db.clients[cid]) && subId in db.subs
      ensures forall d :: d in ds ==>
                d.subId == subId && d.matchType == Subs.Appeared
                && d.service.id in db.services && d.service == db.services[d.service.id]
                && Subs.Matches(db.subs[subId].filter, S.Props(d.service))
      ensures forall sid :: sid in db.services && Subs.Matches(db.subs[subId].filter, S.Props(db.services[sid])) ==>
                exists d :: d in ds && d.service.id == sid
    {
      var sub := db.GetSub(subId);
      var ids := db.ServiceIds();
      ds := [];
      var i := 0;
      while i < |ids|
        invariant 0 <= i <= |ids|
        invariant forall d :: d in ds ==>
                    d.subId == subId && d.matchType == Subs.Appeared
                    && d.service.id in db.services && d.service == db.services[d.service.id]
                    && Subs.Matches(db.subs[subId].filter, S.Props(d.service))
        invariant forall sid ::
                    (sid in db.services && sid in ids[..i] && Subs.Matches(db.subs[subId].filter, S.Props(db.services[sid])))
                    ==> exists d :: d in ds && d.service.id == sid
      {
        var sid := ids[i];
        assert ids[..i + 1] == ids[..i] + [sid];
        var s := db.GetService(sid);
        assert S.Settled(s.value) && Generation.IsConsistent(s.value.current.value);
        var m := Subs.Notify(sub.value, S.Added, s.value);
        if m.Some? {
          ds := ds + [Delivery(subId, m.value, s.value)];
        }
        i := i + 1;
      }
      assert ids[..i] == ids;
    }

    /** sd_foreach_service (forward_if_matches): the services whose properties match, or all without a filter. */
    method ForeachService(filter: Option<F.Filter>) returns (ids: seq<int>)
      requires Valid()
      ensures Cn.Distinct(ids)
      ensures forall sid :: sid in ids <==>
                sid in db.services && Subs.Matches(filter, S.Props(db.services[sid]))
    {
      var all := db.ServiceIds();
      ids := [];
      var i := 0;
      while i < |all|
        invariant 0 <= i <= |all|
        invariant forall k :: 0 <= k < |ids| ==> ids[k] in all[..i]
        invariant Cn.Distinct(ids)
        invariant forall sid :: sid in ids <==>
                    sid in all[..i] && sid in db.services && Subs.Matches(filter, S.Props(db.services[sid]))
      {
        var sid := all[i];
        assert sid !in all[..i];
        assert all[..i + 1] == all[..i] + [sid];
        var s := db.GetService(sid);
        assert S.Settled(s.value) && Generation.IsConsistent(s.value.current.value);
        var match_ := filter.None? || F.Matches(filter.value, S.Props(s.value));
        if match_ {
          ids := ids + [sid];
        }
        i := i + 1;
      }
      assert all[..i] == all;
    }
  }
}
