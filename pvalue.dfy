// A property value: a signed 64-bit integer or a string (src/sd/pvalue.c).
// Values are immutable once created and every holder keeps its own clone,
// so they are modelled as a datatype.
module PValues {
  import opened Decimal

  datatype PValue = Int64(i: int) | Str(s: string)

  predicate IsInt64Value(v: PValue) {
    v.Int64?
  }

  predicate IsStrValue(v: PValue) {
    v.Str?
  }

  /** A value is exactly one of the two kinds. */
  lemma KindsPartition(v: PValue)
    ensures IsInt64Value(v) != IsStrValue(v)
  {
  }

  /** Only values that fit in int64 can be created. */
  predicate WellFormed(v: PValue) {
    v.Int64? ==> IsInt64(v.i)
  }

  /** pvalue_equal: different kinds never compare equal; same kinds compare payloads. */
  function Equal(a: PValue, b: PValue): (r: bool)
    ensures r <==> a == b
  {
    match (a, b)
    case (Int64(x), Int64(y)) => x == y
    case (Str(x), Str(y)) => x == y
    case _ => false
  }

  /** pvalue_clone: a copy equal to the original. */
  function Clone(v: PValue): (r: PValue)
    ensures Equal(r, v) && IsInt64Value(r) == IsInt64Value(v)
  {
    match v
    case Int64(x) => Int64(x)
    case Str(x) => Str(x)
  }
}
