// The orphan timers of src/sd/sd.c. Every change a client operation reports
// is passed to maintain_orphans, which adds, removes or re-arms the timer of
// the changed service. Replaying the reported changes over the services
// table gives the table the operation left, and the timers then belong to
// exactly the orphan services.
module SdOrphans {
  import opened Wrappers
  import opened Properties
  import opened Generation
  import opened Clients
  import opened Db
  import opened ClientSpec
  import Cn = Conns
  import S = Services
  import Subs
  import SdErr
  import ClientProps
  import ClientLaws

  /** What maintain_orphans does to the timer of the changed service. */
  datatype TimerOp = AddTimer | RemoveTimer | UpdateTimer | NoTimer

  /** A change as it reaches service_changed: never `NoChange`, and with the generations sub_notify reads. */
  predicate Reported(c: Change) {
    Subs.Notifiable(c.kind, c.service)
  }

  /** maintain_orphans: the timer decision for a change, from the orphan status before and after. */
  function MaintainOrphans(c: Change): TimerOp
    requires Reported(c)
  {
    match c.kind
    case Added => if S.IsOrphan(c.service) then AddTimer else NoTimer
    case Modified =>
      var isOrphan := S.IsOrphan(c.service);
      var wasOrphan := S.WasOrphan(c.service);
      if wasOrphan && !isOrphan then RemoveTimer
      else if !wasOrphan && isOrphan then AddTimer
      else if wasOrphan && isOrphan then UpdateTimer
      else NoTimer
    case Removed => if S.WasOrphan(c.service) then RemoveTimer else NoTimer
  }

  /** The five transitions of maintain_orphans; every other change leaves the timers alone. */
  lemma MaintainOrphansTable(c: Change)
    requires Reported(c)
    ensures MaintainOrphans(c) == AddTimer <==>
              (c.kind == S.Added && S.IsOrphan(c.service))
              || (c.kind == S.Modified && !S.WasOrphan(c.service) && S.IsOrphan(c.service))
    ensures MaintainOrphans(c) == RemoveTimer <==>
              (c.kind == S.Modified && S.WasOrphan(c.service) && !S.IsOrphan(c.service))
              || (c.kind == S.Removed && S.WasOrphan(c.service))
    ensures MaintainOrphans(c) == UpdateTimer <==>
              c.kind == S.Modified && S.WasOrphan(c.service) && S.IsOrphan(c.service)
  {
  }

  /**
   * The timer map after maintain_orphans, keyed by service id; None where
   * the source would fail (orphan_map_add of a present id, or a get/del of
   * an absent one).
   */
  function ApplyTimer(timers: set<int>, c: Change): (r: Option<set<int>>)
    requires Reported(c)
    ensures r.Some? ==> r.value - {c.service.id} == timers - {c.service.id}
  {
    var id := c.service.id;
    match MaintainOrphans(c)
    case AddTimer => if id in timers then None else Some(timers + {id})
    case RemoveTimer => if id in timers then Some(timers - {id}) else None
    case UpdateTimer => if id in timers then Some(timers) else None
    case NoTimer => Some(timers)
  }

  /** The timers after a sequence of reported changes, in order. */
  function Timers(timers: set<int>, cs: seq<Change>): Option<set<int>>
    decreases |cs|
  {
    if |cs| == 0 then Some(timers)
    else if !Reported(cs[0]) then None
    else match ApplyTimer(timers, cs[0])
      case None => None
      case Some(t') => Timers(t', cs[1..])
  }

  /**
   * The services table a reported change turns `m` into: an addition of a
   * new id, a modification or a removal whose previous generation is the
   * current one in `m`. None for a change that does not fit `m`.
   */
  function Step(m: map<int, S.ServiceValue>, c: Change): Option<map<int, S.ServiceValue>> {
    var id := c.service.id;
    if !Reported(c) then None
    else match c.kind
      case Added => if id !in m && c.service.prev.None? then Some(m[id := c.service]) else None
      case Modified => if id in m && c.service.prev == m[id].current then Some(m[id := c.service]) else None
      case Removed => if id in m && c.service.prev == m[id].current then Some(m - {id}) else None
      case NoChange => None
  }

  /** The services table after a sequence of reported changes. */
  function Replay(m: map<int, S.ServiceValue>, cs: seq<Change>): Option<map<int, S.ServiceValue>>
    decreases |cs|
  {
    if |cs| == 0 then Some(m)
    else match Step(m, cs[0])
      case None => None
      case Some(m') => Replay(m', cs[1..])
  }

  /** The ids of the orphan services: the keys the orphan map is meant to hold. */
  function OrphanIds(m: map<int, S.ServiceValue>): (r: set<int>)
    ensures forall id :: id in r <==> id in m && m[id].current.Some? && S.OrphanIn(m[id].current.value)
  {
    set id | id in m && m[id].current.Some? && S.OrphanIn(m[id].current.value)
  }

  /** One change: the timers of the orphans before it become the timers of the orphans after it. */
  lemma StepTimers(m: map<int, S.ServiceValue>, c: Change)
    requires Step(m, c).Some?
    ensures Reported(c) && ApplyTimer(OrphanIds(m), c) == Some(OrphanIds(Step(m, c).value))
  {
    var id := c.service.id;
    var m' := Step(m, c).value;
    assert forall x :: x != id ==> (x in OrphanIds(m) <==> x in OrphanIds(m'));
    assert id in OrphanIds(m) <==> c.kind != S.Added && S.WasOrphan(c.service);
    assert id in OrphanIds(m') <==> c.kind != S.Removed && S.IsOrphan(c.service);
    var a := ApplyTimer(OrphanIds(m), c);
    assert a.Some?;
    assert id in a.value <==> id in OrphanIds(m');
    assert a.value == OrphanIds(m');
  }

  /** A whole replay: maintain_orphans never fails, and ends with the timers of the final orphans. */
  lemma {:induction false} ReplayTimers(m: map<int, S.ServiceValue>, cs: seq<Change>)
    requires Replay(m, cs).Some?
    ensures Timers(OrphanIds(m), cs) == Some(OrphanIds(Replay(m, cs).value))
    decreases |cs|
  {
    if |cs| > 0 {
      StepTimers(m, cs[0]);
      ReplayTimers(Step(m, cs[0]).value, cs[1..]);
    }
  }

  /** Replaying one more change continues from where the replay ended. */
  lemma {:induction false} ReplaySnoc(m: map<int, S.ServiceValue>, cs: seq<Change>, c: Change)
    ensures Replay(m, cs + [c]) == if Replay(m, cs).Some? then Step(Replay(m, cs).value, c) else None
    decreases |cs|
  {
    if |cs| == 0 {
      assert (cs + [c])[1..] == [];
    } else {
      assert (cs + [c])[0] == cs[0] && (cs + [c])[1..] == cs[1..] + [c];
      if Step(m, cs[0]).Some? {
        ReplaySnoc(Step(m, cs[0]).value, cs[1..], c);
      }
    }
  }

  /** The orphaning of a disconnect replays to the table it leaves. */
  lemma {:induction false} OrphanAllReplays(m: map<int, S.ServiceValue>, ids: seq<int>, now: nat)
    requires forall x :: x in ids ==> x in m && Published(m[x])
    requires forall x :: x in m ==> m[x].id == x
    ensures Replay(m, OrphanAll(m, ids, now).1) == Some(OrphanAll(m, ids, now).0)
    decreases |ids|
  {
    if |ids| > 0 {
      var before := ids[..|ids| - 1];
      var x := ids[|ids| - 1];
      assert x in ids;
      assert forall y :: y in before ==> y in ids;
      var r := OrphanAll(m, before, now);
      OrphanAllReplays(m, before, now);
      var one := OrphanOne(r.0[x], now);
      ReplaySnoc(m, r.1, Change(one.0, one.1));
      assert Step(r.0, Change(one.0, one.1)) == Some(r.0[x := one.0]);
    }
  }

  // ---------------------------------------------------------------------
  // The changes of each client operation replay to the table it leaves

  lemma PublishReplays(t: Tables, cid: int, sid: int, gen: int, props: seq<Pair>, ttl: int)
    requires Consistent(t) && cid in t.clients && IsConnected(t.clients[cid])
    requires sid >= 0 && gen >= 0 && ttl >= 0
    ensures var o := Publish(t, cid, sid, gen, props, ttl);
      Replay(t.services, o.changes) == Some(o.tables.services)
  {
    ClientLaws.PublishErrors(t, cid, sid, gen, props, ttl, true);
    if sid in t.services {
      var cur := ClientLaws.Cur(t, sid);
      if gen > cur.generation {
        PublishNewerReplays(t, cid, sid, gen, props, ttl);
      } else if gen == cur.generation && SameProps(props, cur.props.value) && ttl == cur.ttl {
        PublishSameReplays(t, cid, sid, gen, props, ttl);
      }
    } else {
      PublishNewReplays(t, cid, sid, gen, props, ttl);
    }
  }

  /** A change list of one change replays to what that change steps to. */
  lemma OneChangeReplays(m: map<int, S.ServiceValue>, c: Change, m': map<int, S.ServiceValue>)
    requires Step(m, c) == Some(m')
    ensures Replay(m, [c]) == Some(m')
  {
    assert [c][1..] == [];
  }

  /** A reported modification of a known service replays to the table holding the modified service. */
  lemma ModifiedReplays(m: map<int, S.ServiceValue>, s': S.ServiceValue, m': map<int, S.ServiceValue>)
    requires s'.id in m && s'.prev == m[s'.id].current && m' == m[s'.id := s']
    requires s'.current.Some? && s'.current.value.props.Some? && s'.prev.Some? && s'.prev.value.props.Some?
    ensures Replay(m, [Change(s', S.Modified)]) == Some(m')
  {
    OneChangeReplays(m, Change(s', S.Modified), m');
  }

  lemma PublishNewerReplays(t: Tables, cid: int, sid: int, gen: int, props: seq<Pair>, ttl: int)
    requires Consistent(t) && cid in t.clients && IsConnected(t.clients[cid])
    requires sid >= 0 && gen >= 0 && ttl >= 0 && sid in t.services && gen > ClientLaws.Cur(t, sid).generation
    ensures var o := Publish(t, cid, sid, gen, props, ttl);
      Replay(t.services, o.changes) == Some(o.tables.services)
  {
    var o := Publish(t, cid, sid, gen, props, ttl);
    ClientProps.PublishKeeps(t, cid, sid, gen, props, ttl, true);
    ClientLaws.PublishNewer(t, cid, sid, gen, props, ttl, true);
    ModifiedReplays(t.services, o.tables.services[sid], o.tables.services);
  }

  lemma PublishSameReplays(t: Tables, cid: int, sid: int, gen: int, props: seq<Pair>, ttl: int)
    requires Consistent(t) && cid in t.clients && IsConnected(t.clients[cid])
    requires sid >= 0 && gen >= 0 && ttl >= 0 && sid in t.services
    requires gen == ClientLaws.Cur(t, sid).generation
    requires SameProps(props, ClientLaws.Cur(t, sid).props.value) && ttl == ClientLaws.Cur(t, sid).ttl
    ensures var o := Publish(t, cid, sid, gen, props, ttl);
      Replay(t.services, o.changes) == Some(o.tables.services)
  {
    ClientLaws.PublishSame(t, cid, sid, gen, props, ttl, true);
    if Owner(t, sid) != cid || S.IsOrphan(t.services[sid]) {
      PublishRetakenReplays(t, cid, sid, gen, props, ttl);
    }
  }

  /** The same data republished by another client, or by the owner of an orphan: one modification. */
  lemma PublishRetakenReplays(t: Tables, cid: int, sid: int, gen: int, props: seq<Pair>, ttl: int)
    requires Consistent(t) && cid in t.clients && IsConnected(t.clients[cid])
    requires sid >= 0 && gen >= 0 && ttl >= 0 && sid in t.services
    requires gen == ClientLaws.Cur(t, sid).generation
    requires SameProps(props, ClientLaws.Cur(t, sid).props.value) && ttl == ClientLaws.Cur(t, sid).ttl
    requires Owner(t, sid) != cid || S.IsOrphan(t.services[sid])
    ensures var o := Publish(t, cid, sid, gen, props, ttl);
      Replay(t.services, o.changes) == Some(o.tables.services)
  {
    var o := Publish(t, cid, sid, gen, props, ttl);
    ClientProps.PublishKeeps(t, cid, sid, gen, props, ttl, true);
    ClientLaws.PublishSame(t, cid, sid, gen, props, ttl, true);
    ModifiedReplays(t.services, o.tables.services[sid], o.tables.services);
  }

  lemma PublishNewReplays(t: Tables, cid: int, sid: int, gen: int, props: seq<Pair>, ttl: int)
    requires Consistent(t) && cid in t.clients && IsConnected(t.clients[cid])
    requires sid >= 0 && gen >= 0 && ttl >= 0 && sid !in t.services
    ensures var o := Publish(t, cid, sid, gen, props, ttl);
      Replay(t.services, o.changes) == Some(o.tables.services)
  {
    var o := Publish(t, cid, sid, gen, props, ttl);
    ClientProps.PublishKeeps(t, cid, sid, gen, props, ttl, true);
    ClientLaws.PublishNew(t, cid, sid, gen, props, ttl, true);
    assert Step(t.services, o.changes[0]) == Some(o.tables.services);
    OneChangeReplays(t.services, o.changes[0], o.tables.services);
  }

  /** A removal, possibly preceded by a modification of the same service, replays to the table without it. */
  lemma RemovalReplays(m: map<int, S.ServiceValue>, cs: seq<Change>, sid: int)
    requires sid in m && Published(m[sid]) && (|cs| == 1 || |cs| == 2)
    requires forall i :: 0 <= i < |cs| ==> cs[i].service.id == sid
    requires cs[0].service.prev == m[sid].current
    requires cs[|cs| - 1].kind == S.Removed && cs[|cs| - 1].service.current.None?
    requires |cs| == 2 ==>
               cs[0].kind == S.Modified && cs[0].service.current.Some? && cs[0].service.current.value.props.Some?
               && cs[1].service.prev == cs[0].service.current
    ensures Replay(m, cs) == Some(m - {sid})
  {
    if |cs| == 1 {
      assert Step(m, cs[0]) == Some(m - {sid});
    } else {
      var m1 := m[sid := cs[0].service];
      assert S.Settled(m[sid]) && IsConsistent(m[sid].current.value);
      assert Reported(cs[0]) && Reported(cs[1]);
      assert Step(m, cs[0]) == Some(m1);
      assert m1 - {sid} == m - {sid};
      assert Step(m1, cs[1]) == Some(m - {sid});
      assert cs[1..][0] == cs[1] && cs[1..][1..] == [];
      assert Replay(m1, cs[1..]) == Replay(m - {sid}, []);
    }
  }

  lemma UnpublishReplays(t: Tables, cid: int, sid: int)
    requires Consistent(t) && cid in t.clients && IsConnected(t.clients[cid])
    ensures var o := Unpublish(t, cid, sid);
      Replay(t.services, o.changes) == Some(o.tables.services)
  {
    var o := Unpublish(t, cid, sid);
    ClientLaws.UnpublishLaw(t, cid, sid);
    if sid in t.services {
      RemovalReplays(t.services, o.changes, sid);
    }
  }

  lemma DisconnectReplays(t: Tables, cid: int, now: nat)
    requires Consistent(t) && cid in t.clients && IsConnected(t.clients[cid])
    ensures var o := Disconnect(t, cid, now);
      Replay(t.services, o.changes) == Some(o.tables.services)
  {
    var c := t.clients[cid];
    var a' := Cn.ClearSubs(Cn.MarkDisconnected(c.active.value, now));
    forall x | x in a'.services ensures x in t.services && Published(t.services[x]) {
      assert x in c.active.value.services;
    }
    OrphanAllReplays(t.services, a'.services, now);
  }

  lemma PurgeReplays(t: Tables, cid: int, sid: int)
    requires Consistent(t) && sid in t.services && Owner(t, sid) == cid
    ensures var o := PurgeOrphan(t, cid, sid);
      Replay(t.services, o.changes) == Some(o.tables.services)
  {
    var o := PurgeOrphan(t, cid, sid);
    assert Step(t.services, o.changes[0]) == Some(o.tables.services);
  }
}
