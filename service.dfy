// A published service (src/sd/service.c): a small state machine over three
// generations. `current` is what subscribers see, `prev` is what they saw
// before the last change, and `next` is the change being prepared. A change
// is begun (add or modify), filled in through the setters, and then
// committed or aborted; a service can also be removed.
module Services {
  import opened Wrappers
  import opened Properties
  import opened Generation

  /** service_change_type. `NoChange` is service_change_type_none. */
  datatype ChangeType = NoChange | Added | Modified | Removed

  datatype ServiceValue = ServiceValue(id: int, inProgress: ChangeType,
                                       current: Option<GenValue>, prev: Option<GenValue>,
                                       next: Option<GenValue>)

  /**
   * What has_ongoing_change asserts: the change in progress is never
   * `Removed`, and a change is in progress exactly when there is a `next`.
   */
  predicate WellFormed(s: ServiceValue) {
    s.inProgress != Removed && (s.inProgress == NoChange <==> s.next.None?)
  }

  /** has_ongoing_change. */
  predicate Ongoing(s: ServiceValue) {
    s.inProgress != NoChange
  }

  /** The state between operations: nothing in progress, and every stored generation consistent. */
  predicate Settled(s: ServiceValue) {
    WellFormed(s) && !Ongoing(s)
    && (s.current.Some? ==> IsConsistent(s.current.value))
    && (s.prev.Some? ==> IsConsistent(s.prev.value))
  }

  /** service_create: no generations, nothing in progress. */
  function Create(id: int): (s: ServiceValue)
    ensures Settled(s) && s.id == id
    ensures s.current.None? && s.prev.None?
  {
    ServiceValue(id, NoChange, None, None, None)
  }

  /** service_add_begin: starts a change from a fresh, inconsistent generation. */
  function AddBegin(s: ServiceValue): (r: ServiceValue)
    requires WellFormed(s) && !Ongoing(s)
    ensures WellFormed(r) && Ongoing(r) && r.inProgress == Added
    ensures r.id == s.id && r.current == s.current && r.prev == s.prev
    ensures r.next == Some(Fresh()) && !IsConsistent(r.next.value)
  {
    s.(inProgress := Added, next := Some(Fresh()))
  }

  /** service_modify_begin: starts a change from a copy of the current generation. */
  function ModifyBegin(s: ServiceValue): (r: ServiceValue)
    requires WellFormed(s) && !Ongoing(s) && s.current.Some?
    ensures WellFormed(r) && Ongoing(r) && r.inProgress == Modified
    ensures r.id == s.id && r.current == s.current && r.prev == s.prev && r.next == s.current
  {
    s.(inProgress := Modified, next := s.current)
  }

  /**
   * service_commit: the prepared generation becomes current, the old
   * current becomes prev, nothing is in progress any more, and the kind of
   * change that was in progress is what the change callback receives.
   */
  function Commit(s: ServiceValue): (r: (ServiceValue, ChangeType))
    requires WellFormed(s) && Ongoing(s) && IsConsistent(s.next.value)
    ensures WellFormed(r.0) && !Ongoing(r.0) && r.0.id == s.id
    ensures r.0.current == s.next && r.0.prev == s.current
    ensures r.1 == s.inProgress && (r.1 == Added || r.1 == Modified)
  {
    (s.(prev := s.current, current := s.next, inProgress := NoChange, next := None), s.inProgress)
  }

  /** service_remove: current becomes prev, there is no current, and the callback receives `Removed`. */
  function Remove(s: ServiceValue): (r: (ServiceValue, ChangeType))
    requires WellFormed(s) && !Ongoing(s)
    ensures WellFormed(r.0) && !Ongoing(r.0) && r.0.id == s.id
    ensures r.0.current.None? && r.0.prev == s.current && r.1 == Removed
  {
    (s.(prev := s.current, current := None), Removed)
  }

  /** service_abort: the prepared generation is discarded. */
  function Abort(s: ServiceValue): (r: ServiceValue)
    requires WellFormed(s) && Ongoing(s)
    ensures WellFormed(r) && !Ongoing(r)
    ensures r.id == s.id && r.current == s.current && r.prev == s.prev
  {
    s.(inProgress := NoChange, next := None)
  }

  // The setters: each requires an ongoing change and writes one field of `next` only.

  function SetGeneration(s: ServiceValue, x: int): (r: ServiceValue)
    requires WellFormed(s) && Ongoing(s)
    ensures WellFormed(r) && Ongoing(r) && r.inProgress == s.inProgress
    ensures r.id == s.id && r.current == s.current && r.prev == s.prev
    ensures r.next == Some(s.next.value.(generation := x))
  {
    s.(next := Some(s.next.value.(generation := x)))
  }

  function SetProps(s: ServiceValue, ps: seq<Pair>): (r: ServiceValue)
    requires WellFormed(s) && Ongoing(s)
    ensures WellFormed(r) && Ongoing(r) && r.inProgress == s.inProgress
    ensures r.id == s.id && r.current == s.current && r.prev == s.prev
    ensures r.next == Some(s.next.value.(props := Some(ps)))
  {
    s.(next := Some(s.next.value.(props := Some(ps))))
  }

  function SetTtl(s: ServiceValue, x: int): (r: ServiceValue)
    requires WellFormed(s) && Ongoing(s)
    ensures WellFormed(r) && Ongoing(r) && r.inProgress == s.inProgress
    ensures r.id == s.id && r.current == s.current && r.prev == s.prev
    ensures r.next == Some(s.next.value.(ttl := x))
  {
    s.(next := Some(s.next.value.(ttl := x)))
  }

  function SetOrphanSince(s: ServiceValue, x: int): (r: ServiceValue)
    requires WellFormed(s) && Ongoing(s)
    ensures WellFormed(r) && Ongoing(r) && r.inProgress == s.inProgress
    ensures r.id == s.id && r.current == s.current && r.prev == s.prev
    ensures r.next == Some(s.next.value.(orphanSince := Some(x)))
  {
    s.(next := Some(s.next.value.(orphanSince := Some(x))))
  }

  function SetClientId(s: ServiceValue, x: int): (r: ServiceValue)
    requires WellFormed(s) && Ongoing(s)
    ensures WellFormed(r) && Ongoing(r) && r.inProgress == s.inProgress
    ensures r.id == s.id && r.current == s.current && r.prev == s.prev
    ensures r.next == Some(s.next.value.(clientId := x))
  {
    s.(next := Some(s.next.value.(clientId := x)))
  }

  /** service_set_non_orphan: orphan_since becomes -1, so the next generation is not an orphan. */
  function SetNonOrphan(s: ServiceValue): (r: ServiceValue)
    requires WellFormed(s) && Ongoing(s)
    ensures WellFormed(r) && Ongoing(r) && r == SetOrphanSince(s, -1)
    ensures !OrphanIn(r.next.value)
  {
    SetOrphanSince(s, -1)
  }

  /** A generation is an orphan's when its orphan_since is a number >= 0 (NaN compares false). */
  predicate OrphanIn(g: GenValue) {
    g.orphanSince.Some? && g.orphanSince.value >= 0
  }

  /** service_is_orphan: reads the current generation. */
  predicate IsOrphan(s: ServiceValue)
    requires s.current.Some?
  {
    OrphanIn(s.current.value)
  }

  /** service_was_orphan: false without a previous generation. */
  predicate WasOrphan(s: ServiceValue) {
    s.prev.Some? && OrphanIn(s.prev.value)
  }

  /** service_get_props: the current properties. */
  function Props(s: ServiceValue): seq<Pair>
    requires s.current.Some? && s.current.value.props.Some?
  {
    s.current.value.props.value
  }

  /** service_get_prev_props: the previous properties. */
  function PrevProps(s: ServiceValue): seq<Pair>
    requires s.prev.Some? && s.prev.value.props.Some?
  {
    s.prev.value.props.value
  }

  /** Beginning a change and aborting it leaves the service as it was. */
  lemma AbortUndoesBegin(s: ServiceValue)
    requires WellFormed(s) && !Ongoing(s)
    ensures Abort(AddBegin(s)) == s
    ensures s.current.Some? ==> Abort(ModifyBegin(s)) == s
  {
  }

  /** A commit of a consistent change, and a removal, keep a settled service settled. */
  lemma {:induction false} CommitAndRemoveSettle(s: ServiceValue)
    requires WellFormed(s) && (s.current.Some? ==> IsConsistent(s.current.value))
    ensures Ongoing(s) && IsConsistent(s.next.value) ==> Settled(Commit(s).0)
    ensures !Ongoing(s) && (s.prev.Some? ==> IsConsistent(s.prev.value)) ==> Settled(Remove(s).0)
  {
  }

  /**
   * After a commit, was_orphan reports what is_orphan reported before it,
   * and is_orphan reports the orphan status of the committed generation.
   */
  lemma OrphanHistory(s: ServiceValue)
    requires WellFormed(s) && Ongoing(s) && IsConsistent(s.next.value) && s.current.Some?
    ensures WasOrphan(Commit(s).0) == IsOrphan(s)
    ensures IsOrphan(Commit(s).0) == OrphanIn(s.next.value)
  {
  }

  /** After a removal, was_orphan reports what is_orphan reported before it. */
  lemma RemoveOrphanHistory(s: ServiceValue)
    requires WellFormed(s) && !Ongoing(s) && s.current.Some?
    ensures WasOrphan(Remove(s).0) == IsOrphan(s)
  {
  }

  /** A service created with add_begin and committed has never been an orphan before. */
  lemma FirstCommitWasNotOrphan(id: int, g: GenValue)
    requires IsConsistent(g)
    ensures var r := Commit(AddBegin(Create(id)).(next := Some(g)));
            !WasOrphan(r.0) && r.1 == Added && r.0.current == Some(g)
  {
  }
}

// The service object itself: the fields service.c reassigns, with each
// operation proved against its transition in Services.
module ServiceObjects {
  import opened Wrappers
  import opened Properties
  import opened Generation
  import opened Services

  /** The mutable service record; its change callback is the change kind the methods return. */
  class Service {
    const id: int
    var changeInProgress: ChangeType
    var current: Option<GenValue>
    var prev: Option<GenValue>
    var next: Option<GenValue>
    var refCnt: int

    function Value(): ServiceValue
      reads this
    {
      ServiceValue(id, changeInProgress, current, prev, next)
    }

    ghost predicate Valid()
      reads this
    {
      WellFormed(Value()) && refCnt >= 0
    }

    /** service_create: one reference, held by the creator. */
    constructor (id: int)
      ensures Valid() && Value() == Create(id) && refCnt == 1
    {
      this.id := id;
      changeInProgress := NoChange;
      current := None;
      prev := None;
      next := None;
      refCnt := 1;
    }

    /** service_inc_ref. */
    method IncRef()
      requires Valid() && refCnt > 0
      modifies this
      ensures Valid() && refCnt == old(refCnt) + 1 && Value() == old(Value())
    {
      refCnt := refCnt + 1;
    }

    /** service_dec_ref: `destroyed` is set when the last reference goes. */
    method DecRef() returns (destroyed: bool)
      requires Valid() && refCnt > 0
      modifies this
      ensures Valid() && refCnt == old(refCnt) - 1 && Value() == old(Value())
      ensures destroyed <==> refCnt == 0
    {
      refCnt := refCnt - 1;
      destroyed := refCnt == 0;
    }

    /** has_ongoing_change. */
    method HasOngoingChange() returns (r: bool)
      requires Valid()
      ensures r <==> Ongoing(Value())
      ensures r <==> next.Some?
    {
      r := changeInProgress != NoChange;
    }

    method AddBegin()
      requires Valid() && !Ongoing(Value())
      modifies this
      ensures Valid() && refCnt == old(refCnt)
      ensures Value() == Services.AddBegin(old(Value()))
    {
      changeInProgress := Added;
      next := Some(Fresh());
    }

    method ModifyBegin()
      requires Valid() && !Ongoing(Value()) && current.Some?
      modifies this
      ensures Valid() && refCnt == old(refCnt)
      ensures Value() == Services.ModifyBegin(old(Value()))
    {
      changeInProgress := Modified;
      next := current;
    }

    method Commit() returns (change: ChangeType)
      requires Valid() && Ongoing(Value()) && IsConsistent(next.value)
      modifies this
      ensures Valid() && refCnt == old(refCnt)
      ensures (Value(), change) == Services.Commit(old(Value()))
    {
      prev := current;
      current := next;
      change := changeInProgress;
      changeInProgress := NoChange;
      next := None;
    }

    method Remove() returns (change: ChangeType)
      requires Valid() && !Ongoing(Value())
      modifies this
      ensures Valid() && refCnt == old(refCnt)
      ensures (Value(), change) == Services.Remove(old(Value()))
    {
      prev := current;
      current := None;
      change := Removed;
    }

    method Abort()
      requires Valid() && Ongoing(Value())
      modifies this
      ensures Valid() && refCnt == old(refCnt)
      ensures Value() == Services.Abort(old(Value()))
    {
      changeInProgress := NoChange;
      next := None;
    }

    method SetGeneration(x: int)
      requires Valid() && Ongoing(Value())
      modifies this
      ensures Valid() && refCnt == old(refCnt)
      ensures Value() == Services.SetGeneration(old(Value()), x)
    {
      next := Some(next.value.(generation := x));
    }

    method SetProps(ps: seq<Pair>)
      requires Valid() && Ongoing(Value())
      modifies this
      ensures Valid() && refCnt == old(refCnt)
      ensures Value() == Services.SetProps(old(Value()), ps)
    {
      next := Some(next.value.(props := Some(ps)));
    }

    method SetTtl(x: int)
      requires Valid() && Ongoing(Value())
      modifies this
      ensures Valid() && refCnt == old(refCnt)
      ensures Value() == Services.SetTtl(old(Value()), x)
    {
      next := Some(next.value.(ttl := x));
    }

    method SetOrphanSince(x: int)
      requires Valid() && Ongoing(Value())
      modifies this
      ensures Valid() && refCnt == old(refCnt)
      ensures Value() == Services.SetOrphanSince(old(Value()), x)
    {
      next := Some(next.value.(orphanSince := Some(x)));
    }

    method SetClientId(x: int)
      requires Valid() && Ongoing(Value())
      modifies this
      ensures Valid() && refCnt == old(refCnt)
      ensures Value() == Services.SetClientId(old(Value()), x)
    {
      next := Some(next.value.(clientId := x));
    }

    method SetNonOrphan()
      requires Valid() && Ongoing(Value())
      modifies this
      ensures Valid() && refCnt == old(refCnt)
      ensures Value() == Services.SetNonOrphan(old(Value()))
    {
      SetOrphanSince(-1);
    }

    method IsOrphanNow() returns (r: bool)
      requires current.Some?
      ensures r == IsOrphan(Value())
    {
      r := current.value.orphanSince.Some? && current.value.orphanSince.value >= 0;
    }

    method WasOrphanNow() returns (r: bool)
      ensures r == WasOrphan(Value())
    {
      if prev.None? {
        return false;
      }
      r := prev.value.orphanSince.Some? && prev.value.orphanSince.value >= 0;
    }
  }
}
