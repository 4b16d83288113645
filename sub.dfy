// A subscription (src/sd/sub.c): an optional filter owned by a client.
// When a service changes, the subscription decides whether its owner sees
// the service appear, change or disappear, or hears nothing.
module Subs {
  import opened Wrappers
  import opened Properties
  import opened Generation
  import S = Services
  import F = Filter

  /** sub_match_type. */
  datatype MatchType = Appeared | Modified | Disappeared

  datatype SubValue = SubValue(id: int, filter: Option<F.Filter>, clientId: int)

  /** matches: a subscription without a filter matches every property set. */
  predicate Matches(filter: Option<F.Filter>, ps: seq<Pair>) {
    filter.None? || F.Matches(filter.value, ps)
  }

  /**
   * The generations sub_notify reads exist and have properties: the
   * current one for an addition, both for a modification, the previous one
   * for a removal. `NoChange` is never notified (the source asserts).
   */
  predicate Notifiable(change: S.ChangeType, s: S.ServiceValue) {
    match change
    case NoChange => false
    case Added => s.current.Some? && s.current.value.props.Some?
    case Modified => s.current.Some? && s.current.value.props.Some?
                     && s.prev.Some? && s.prev.value.props.Some?
    case Removed => s.prev.Some? && s.prev.value.props.Some?
  }

  /**
   * sub_notify: the match type the callback is invoked with, or None when
   * it is not invoked. Returning one optional value is the "at most one
   * callback per notification" of the source.
   */
  function Notify(sub: SubValue, change: S.ChangeType, s: S.ServiceValue): (r: Option<MatchType>)
    requires Notifiable(change, s)
    ensures change == S.Added ==>
              (r.Some? <==> Matches(sub.filter, S.Props(s))) && (r.Some? ==> r.value == Appeared)
    ensures change == S.Removed ==>
              (r.Some? <==> Matches(sub.filter, S.PrevProps(s))) && (r.Some? ==> r.value == Disappeared)
    ensures change == S.Modified ==>
              var before := Matches(sub.filter, S.PrevProps(s));
              var after := Matches(sub.filter, S.Props(s));
              (before && after ==> r == Some(Modified))
              && (!before && after ==> r == Some(Appeared))
              && (before && !after ==> r == Some(Disappeared))
              && (!before && !after ==> r.None?)
  {
    match change
    case Added =>
      if Matches(sub.filter, S.Props(s)) then Some(Appeared) else None
    case Modified =>
      var before := Matches(sub.filter, S.PrevProps(s));
      var after := Matches(sub.filter, S.Props(s));
      if !before && !after then None
      else if before && after then Some(Modified)
      else if !before && after then Some(Appeared)
      else Some(Disappeared)
    case Removed =>
      if Matches(sub.filter, S.PrevProps(s)) then Some(Disappeared) else None
  }

  /**
   * Whether the subscriber sees the service before and after the change:
   * a service is seen when it exists and its properties match; an added
   * service did not exist before and a removed one does not exist after.
   */
  predicate SeenBefore(sub: SubValue, change: S.ChangeType, s: S.ServiceValue)
    requires Notifiable(change, s)
  {
    change != S.Added && Matches(sub.filter, S.PrevProps(s))
  }

  predicate SeenAfter(sub: SubValue, change: S.ChangeType, s: S.ServiceValue)
    requires Notifiable(change, s)
  {
    change != S.Removed && Matches(sub.filter, S.Props(s))
  }

  /**
   * The decision table is the change of visibility: the subscriber is told
   * "appeared" exactly when the service becomes visible, "disappeared"
   * exactly when it stops being visible, "modified" exactly when it stays
   * visible, and nothing when it is invisible throughout.
   */
  lemma NotifyTracksVisibility(sub: SubValue, change: S.ChangeType, s: S.ServiceValue)
    requires Notifiable(change, s)
    ensures Notify(sub, change, s) == Some(Appeared) <==>
              !SeenBefore(sub, change, s) && SeenAfter(sub, change, s)
    ensures Notify(sub, change, s) == Some(Disappeared) <==>
              SeenBefore(sub, change, s) && !SeenAfter(sub, change, s)
    ensures Notify(sub, change, s) == Some(Modified) <==>
              SeenBefore(sub, change, s) && SeenAfter(sub, change, s)
    ensures Notify(sub, change, s).None? <==>
              !SeenBefore(sub, change, s) && !SeenAfter(sub, change, s)
  {
  }

  /** A subscription without a filter hears about every addition and removal, and every modification as such. */
  lemma UnfilteredHearsEverything(sub: SubValue, change: S.ChangeType, s: S.ServiceValue)
    requires Notifiable(change, s) && sub.filter.None?
    ensures Notify(sub, change, s) == Some(match change
                                           case Added => Appeared
                                           case Modified => Modified
                                           case _ => Disappeared)
  {
  }

  /** Every change a settled service reports through commit or remove can be notified. */
  lemma ChangesAreNotifiable(s: S.ServiceValue)
    requires S.WellFormed(s)
    requires s.current.Some? ==> IsConsistent(s.current.value)
    requires s.prev.Some? ==> IsConsistent(s.prev.value)
    ensures (S.Ongoing(s) && IsConsistent(s.next.value) && (s.inProgress == S.Modified ==> s.current.Some?))
            ==> Notifiable(S.Commit(s).1, S.Commit(s).0)
    ensures !S.Ongoing(s) && s.current.Some? ==> Notifiable(S.Remove(s).1, S.Remove(s).0)
  {
  }
}

// The subscription object: fixed at creation apart from its reference count.
module SubObjects {
  import opened Wrappers
  import F = Filter
  import FilterImpl
  import opened Subs

  class Sub {
    const id: int
    const filter: Option<F.Filter>
    const clientId: int
    var refCnt: int

    function Value(): SubValue
    {
      SubValue(id, filter, clientId)
    }

    /** sub_create: keeps a copy of the filter (if any); one reference, held by the creator. */
    constructor (id: int, filter: Option<F.Filter>, clientId: int)
      ensures Value() == SubValue(id, filter, clientId) && refCnt == 1
    {
      this.id := id;
      this.filter := filter;
      this.clientId := clientId;
      refCnt := 1;
    }

    /** sub_inc_ref. */
    method IncRef()
      requires refCnt > 0
      modifies this
      ensures refCnt == old(refCnt) + 1
    {
      refCnt := refCnt + 1;
    }

    /** sub_dec_ref: `destroyed` is set exactly when the count reaches zero. */
    method DecRef() returns (destroyed: bool)
      requires refCnt > 0
      modifies this
      ensures refCnt == old(refCnt) - 1
      ensures destroyed <==> refCnt == 0
    {
      refCnt := refCnt - 1;
      destroyed := refCnt == 0;
    }

    /** sub_get_filter_str: the canonical text of the filter, if there is one. */
    method FilterStr() returns (r: Option<string>)
      ensures filter.None? ==> r.None?
      ensures filter.Some? ==> r == Some(F.Str(filter.value))
    {
      if filter.None? {
        return None;
      }
      var s := FilterImpl.FilterStr(filter.value);
      r := Some(s);
    }
  }
}
