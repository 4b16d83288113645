// One generation of a service's published data (src/sd/generation.c): the
// generation number, the properties, the time-to-live, the time the
// service became an orphan, and the owning client.
module Generation {
  import opened Wrappers
  import opened Properties

  /**
   * A snapshot of a generation record. `props == None` stands for the NULL
   * props reference and `orphanSince == None` for NaN; a negative
   * `orphanSince` means "not an orphan". Properties are held by value, so
   * the deep copies the source makes are implicit.
   */
  datatype GenValue = GenValue(generation: int, props: Option<seq<Pair>>, ttl: int,
                               orphanSince: Option<int>, clientId: int)

  /** generation_is_consistent: every field holds a real value, not a sentinel. */
  predicate IsConsistent(g: GenValue) {
    g.generation >= 0 && g.props.Some? && g.ttl >= 0 && g.orphanSince.Some? && g.clientId >= 0
  }

  /**
   * The record generation_create returns. It is not consistent, and it
   * becomes consistent once each of its five fields is given a valid value.
   */
  function Fresh(): (g: GenValue)
    ensures !IsConsistent(g)
    ensures forall gen: int, ps: seq<Pair>, ttl: int, since: int, client: int ::
              IsConsistent(g.(generation := gen, props := Some(ps), ttl := ttl,
                              orphanSince := Some(since), clientId := client))
              <==> gen >= 0 && ttl >= 0 && client >= 0
    ensures g.generation < 0 && g.ttl < 0 && g.clientId < 0
    ensures g.props.None? && g.orphanSince.None?
  {
    GenValue(-1, None, -1, None, -1)
  }

  /** The mutable generation record; the setters each write one field. */
  class Generation {
    var generation: int
    var props: Option<seq<Pair>>
    var ttl: int
    var orphanSince: Option<int>
    var clientId: int

    function Value(): GenValue
      reads this
    {
      GenValue(generation, props, ttl, orphanSince, clientId)
    }

    /** generation_create: every field holds its sentinel. */
    constructor ()
      ensures Value() == Fresh()
    {
      generation := -1;
      props := None;
      ttl := -1;
      orphanSince := None;
      clientId := -1;
    }

    /** generation_clone: a new record with equal fields (props copied). */
    method Clone() returns (copy: Generation)
      ensures fresh(copy) && copy.Value() == Value()
      ensures IsConsistent(copy.Value()) == IsConsistent(Value())
    {
      copy := new Generation();
      copy.generation := generation;
      copy.props := props;
      copy.ttl := ttl;
      copy.orphanSince := orphanSince;
      copy.clientId := clientId;
    }

    /** generation_is_consistent on the record. */
    method IsConsistentNow() returns (r: bool)
      ensures r <==> IsConsistent(Value())
    {
      r := generation >= 0 && props.Some? && ttl >= 0 && orphanSince.Some? && clientId >= 0;
    }

    method SetGeneration(x: int)
      modifies this
      ensures Value() == old(Value()).(generation := x)
    {
      generation := x;
    }

    /** generation_set_props: drops the old bag and keeps a copy of `ps`. */
    method SetProps(ps: seq<Pair>)
      modifies this
      ensures Value() == old(Value()).(props := Some(ps))
    {
      props := Some(ps);
    }

    method SetTtl(x: int)
      modifies this
      ensures Value() == old(Value()).(ttl := x)
    {
      ttl := x;
    }

    method SetOrphanSince(x: int)
      modifies this
      ensures Value() == old(Value()).(orphanSince := Some(x))
    {
      orphanSince := Some(x);
    }

    method SetClientId(x: int)
      modifies this
      ensures Value() == old(Value()).(clientId := x)
    {
      clientId := x;
    }
  }
}
