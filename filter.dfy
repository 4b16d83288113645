// The subscription filter language of src/sd/filter.c: the filter tree, its
// canonical printed form, the escaping of special characters, and matching
// against a property bag. C strings are modelled by the sequence of their
// characters before the terminating NUL.
module Filter {
  import opened Wrappers
  import opened Decimal
  import opened PValues
  import opened Properties

  const BEGIN_EXPR: char := '('
  const END_EXPR: char := ')'
  const ANY: char := '*'
  const ESCAPE: char := '\\'
  const NOT: char := '!'
  const AND: char := '&'
  const OR: char := '|'
  const EQUAL: char := '='
  const GREATER_THAN: char := '>'
  const LESS_THAN: char := '<'

  const SPECIAL_CHARS: string := "()*\\!&|=<>"

  predicate IsSpecial(c: char) {
    c in SPECIAL_CHARS
  }

  /**
   * A parsed filter. In a substring filter an empty `initial` or `final`
   * stands for the source's NULL (no such part); the comparison value of
   * `>` and `<` is kept as the integer its decimal text denotes.
   */
  datatype Filter =
    | Equal(key: string, value: string)
    | GreaterThan(key: string, bound: int)
    | LessThan(key: string, bound: int)
    | Present(key: string)
    | Substring(key: string, initial: string, intermediates: seq<string>, final: string)
    | Not(operand: Filter)
    | And(operands: seq<Filter>)
    | Or(operands: seq<Filter>)

  /** The filters the parser can produce. */
  predicate WellFormed(f: Filter) {
    match f
    case Equal(k, _) => k != []
    case GreaterThan(k, n) => k != [] && IsInt64(n)
    case LessThan(k, n) => k != [] && IsInt64(n)
    case Present(k) => k != []
    case Substring(k, i, ms, fi) =>
      k != [] && (forall j :: 0 <= j < |ms| ==> ms[j] != [])
      && !(i == [] && ms == [] && fi == [])
    case Not(g) => WellFormed(g)
    case And(gs) => |gs| >= 2 && AllWellFormed(gs)
    case Or(gs) => |gs| >= 2 && AllWellFormed(gs)
  }

  predicate AllWellFormed(gs: seq<Filter>) {
    forall j :: 0 <= j < |gs| ==> WellFormed(gs[j])
  }

  // ---------------------------------------------------------------- printing

  /** filter_escape: a backslash before every special character. */
  function Escape(s: string): (r: string)
    ensures |r| >= |s|
    ensures |s| > 0 ==> |r| > 0 && (IsSpecial(s[0]) ==> r[0] == ESCAPE) && (!IsSpecial(s[0]) ==> r[0] == s[0])
  {
    if |s| == 0 then []
    else (if IsSpecial(s[0]) then [ESCAPE, s[0]] else [s[0]]) + Escape(s[1..])
  }

  /** A string without special characters is its own escape. */
  lemma {:induction false} EscapePlain(s: string)
    requires forall k :: 0 <= k < |s| ==> !IsSpecial(s[k])
    ensures Escape(s) == s
  {
    if |s| > 0 {
      EscapePlain(s[1..]);
    }
  }

  /** Decimal renderings contain no special character. */
  lemma EscapeDecimal(n: int)
    ensures Escape(IntToString(n)) == IntToString(n)
  {
    var s := IntToString(n);
    forall k | 0 <= k < |s| ensures !IsSpecial(s[k]) {
      assert IsDigit(s[k]) || s[k] == '-';
    }
    EscapePlain(s);
  }

  /** filter_str: every node prints as "(" + its body + ")". */
  function Str(f: Filter): string
    decreases f, 1
  {
    [BEGIN_EXPR] + Body(f) + [END_EXPR]
  }

  function Body(f: Filter): string
    decreases f, 0
  {
    match f
    case Equal(k, v) => Escape(k) + [EQUAL] + Escape(v)
    case GreaterThan(k, n) => Escape(k) + [GREATER_THAN] + Escape(IntToString(n))
    case LessThan(k, n) => Escape(k) + [LESS_THAN] + Escape(IntToString(n))
    case Present(k) => Escape(k) + [EQUAL, ANY]
    case Substring(k, i, ms, fi) => Escape(k) + [EQUAL] + Escape(i) + [ANY] + IntermediatesStr(ms) + Escape(fi)
    case Not(g) => [NOT] + Str(g)
    case And(gs) => [AND] + OperandsStr(gs)
    case Or(gs) => [OR] + OperandsStr(gs)
  }

  /** Each intermediate substring, escaped and followed by "*". */
  function IntermediatesStr(ms: seq<string>): string {
    if |ms| == 0 then [] else Escape(ms[0]) + [ANY] + IntermediatesStr(ms[1..])
  }

  /** The operands of a composite, printed one after the other. */
  function OperandsStr(gs: seq<Filter>): string
    decreases gs
  {
    if |gs| == 0 then [] else Str(gs[0]) + OperandsStr(gs[1..])
  }

  /** filter_equal: two filters are equal when their canonical strings are. */
  function FilterEqual(a: Filter, b: Filter): bool {
    Str(a) == Str(b)
  }

  // ---------------------------------------------------------------- matching

  /** The text an EQUAL comparison compares against: the string, or the integer in decimal. */
  function ValueText(v: PValue): string {
    match v
    case Str(s) => s
    case Int64(i) => IntToString(i)
  }

  /**
   * props_foreach with a callback that stops at the first pair satisfying
   * `hit`: whether such a pair was found.
   */
  function Scan(ps: seq<Pair>, hit: Pair -> bool): bool {
    |ps| > 0 && (hit(ps[0]) || Scan(ps[1..], hit))
  }

  lemma {:induction false} ScanExists(ps: seq<Pair>, hit: Pair -> bool)
    ensures Scan(ps, hit) <==> exists i :: 0 <= i < |ps| && hit(ps[i])
  {
    if |ps| > 0 {
      ScanExists(ps[1..], hit);
      if !hit(ps[0]) && exists i :: 0 <= i < |ps| && hit(ps[i]) {
        var i :| 0 <= i < |ps| && hit(ps[i]);
        assert ps[1..][i - 1] == ps[i];
      }
      if exists i :: 0 <= i < |ps[1..]| && hit(ps[1..][i]) {
        var i :| 0 <= i < |ps[1..]| && hit(ps[1..][i]);
        assert ps[i + 1] == ps[1..][i];
      }
    }
  }

  /** strstr: the leftmost position at which `needle` occurs in `hay`. */
  function Find(hay: string, needle: string): (r: Option<nat>)
    ensures r.Some? ==> r.value + |needle| <= |hay| && hay[r.value..r.value + |needle|] == needle
  {
    if |needle| <= |hay| && hay[..|needle|] == needle then Some(0)
    else if |hay| == 0 then None
    else match Find(hay[1..], needle)
      case None => None
      case Some(p) =>
        assert hay[1..][p..p + |needle|] == hay[p + 1..p + 1 + |needle|];
        Some(p + 1)
  }

  /** No occurrence is left of the one strstr reports, and strstr misses none. */
  lemma {:induction false} FindLeftmost(hay: string, needle: string, p: nat)
    requires p + |needle| <= |hay| && hay[p..p + |needle|] == needle
    ensures Find(hay, needle).Some? && Find(hay, needle).value <= p
  {
    if !(|needle| <= |hay| && hay[..|needle|] == needle) {
      assert p > 0;
      assert hay[1..][p - 1..p - 1 + |needle|] == hay[p..p + |needle|];
      FindLeftmost(hay[1..], needle, p - 1);
    }
  }

  /** The final part, when there is one, must end the value without overlapping what came before. */
  function FinalMatches(value: string, offset: nat, final: string): bool
    requires offset <= |value|
  {
    final == [] || (|value| - offset >= |final| && value[|value| - |final|..] == final)
  }

  /**
   * The intermediate-substring loop of substring_matches_cb with the offset
   * advanced past each occurrence found (start - value + length).
   */
  function IntermediatesMatch(value: string, offset: nat, ms: seq<string>, final: string): bool
    requires offset <= |value|
    decreases |ms|
  {
    if |ms| == 0 then FinalMatches(value, offset, final)
    else match Find(value[offset..], ms[0])
      case None => false
      case Some(p) => IntermediatesMatch(value, offset + p + |ms[0]|, ms[1..], final)
  }

  /** substring_matches_cb on one string value. */
  function SubstringMatches(value: string, initial: string, ms: seq<string>, final: string): bool {
    |initial| <= |value| && value[..|initial|] == initial
    && IntermediatesMatch(value, |initial|, ms, final)
  }

  /** `m` occurs in `value` at position `p`. */
  predicate OccursAt(value: string, p: nat, m: string) {
    p + |m| <= |value| && value[p..p + |m|] == m
  }

  /** The intermediates occur in order from `offset` on, and the value ends with `final` after them. */
  ghost predicate FitsFrom(value: string, offset: nat, ms: seq<string>, final: string)
    decreases |ms|
  {
    offset <= |value| &&
    if |ms| == 0 then |value| - offset >= |final| && value[|value| - |final|..] == final
    else exists p: nat :: OccursAt(value, p, ms[0]) && offset <= p
                          && FitsFrom(value, p + |ms[0]|, ms[1..], final)
  }

  /**
   * What a substring filter means: the value is the initial part, then each
   * intermediate in order (with anything between), then the final part.
   */
  ghost predicate SubstringSpec(value: string, initial: string, ms: seq<string>, final: string) {
    |initial| <= |value| && value[..|initial|] == initial && FitsFrom(value, |initial|, ms, final)
  }

  lemma {:induction false} FitsFromMonotone(value: string, o1: nat, o2: nat, ms: seq<string>, final: string)
    requires o1 <= o2 && FitsFrom(value, o2, ms, final)
    ensures FitsFrom(value, o1, ms, final)
  {
    if |ms| > 0 {
      var p: nat :| OccursAt(value, p, ms[0]) && o2 <= p && FitsFrom(value, p + |ms[0]|, ms[1..], final);
      assert o1 <= p;
    }
  }

  /** strstr from an offset reports an occurrence, and the leftmost one. */
  lemma FindFrom(value: string, offset: nat, m: string)
    requires offset <= |value|
    ensures Find(value[offset..], m).Some? ==> OccursAt(value, offset + Find(value[offset..], m).value, m)
    ensures forall p: nat :: OccursAt(value, p, m) && offset <= p ==>
              Find(value[offset..], m).Some? && offset + Find(value[offset..], m).value <= p
  {
    FindFromOccurs(value, offset, m);
    forall p: nat | OccursAt(value, p, m) && offset <= p
      ensures Find(value[offset..], m).Some? && offset + Find(value[offset..], m).value <= p
    {
      FindFromBefore(value, offset, m, p);
    }
  }

  lemma FindFromOccurs(value: string, offset: nat, m: string)
    requires offset <= |value|
    ensures Find(value[offset..], m).Some? ==> OccursAt(value, offset + Find(value[offset..], m).value, m)
  {
    var r := Find(value[offset..], m);
    if r.Some? {
      assert value[offset..][r.value..r.value + |m|] == value[offset + r.value..offset + r.value + |m|];
    }
  }

  lemma FindFromBefore(value: string, offset: nat, m: string, p: nat)
    requires offset <= p && OccursAt(value, p, m)
    ensures Find(value[offset..], m).Some? && offset + Find(value[offset..], m).value <= p
  {
    assert value[offset..][p - offset..p - offset + |m|] == m;
    FindLeftmost(value[offset..], m, p - offset);
  }

  lemma {:induction false} MatchImpliesFits(value: string, offset: nat, ms: seq<string>, final: string)
    requires offset <= |value| && IntermediatesMatch(value, offset, ms, final)
    ensures FitsFrom(value, offset, ms, final)
    decreases |ms|
  {
    if |ms| > 0 {
      FindFrom(value, offset, ms[0]);
      var q := Find(value[offset..], ms[0]).value;
      MatchImpliesFits(value, offset + q + |ms[0]|, ms[1..], final);
      assert OccursAt(value, offset + q, ms[0]);
    }
  }

  lemma {:induction false} FitsImpliesMatch(value: string, offset: nat, ms: seq<string>, final: string)
    requires offset <= |value| && FitsFrom(value, offset, ms, final)
    ensures IntermediatesMatch(value, offset, ms, final)
    decreases |ms|
  {
    if |ms| > 0 {
      var p: nat :| OccursAt(value, p, ms[0]) && offset <= p && FitsFrom(value, p + |ms[0]|, ms[1..], final);
      FindFrom(value, offset, ms[0]);
      var q := Find(value[offset..], ms[0]).value;
      FitsFromMonotone(value, offset + q + |ms[0]|, p + |ms[0]|, ms[1..], final);
      FitsImpliesMatch(value, offset + q + |ms[0]|, ms[1..], final);
    }
  }

  /** The greedy leftmost search decides exactly the substring specification. */
  lemma IntermediatesMatchSpec(value: string, offset: nat, ms: seq<string>, final: string)
    requires offset <= |value|
    ensures IntermediatesMatch(value, offset, ms, final) <==> FitsFrom(value, offset, ms, final)
  {
    if IntermediatesMatch(value, offset, ms, final) {
      MatchImpliesFits(value, offset, ms, final);
    }
    if FitsFrom(value, offset, ms, final) {
      FitsImpliesMatch(value, offset, ms, final);
    }
  }

  lemma SubstringMatchesSpec(value: string, initial: string, ms: seq<string>, final: string)
    ensures SubstringMatches(value, initial, ms, final) <==> SubstringSpec(value, initial, ms, final)
  {
    if |initial| <= |value| {
      IntermediatesMatchSpec(value, |initial|, ms, final);
    }
  }

  /**
   * The intermediate loop exactly as written at src/sd/filter.c:430, where
   * the new offset is (value - start) + length, i.e. length - position, as
   * an unsigned size. A negative result wraps around; reading the string at
   * such an offset is undefined, which the model reports as None.
   */
  function IntermediatesMatchAsWritten(value: string, offset: int, ms: seq<string>, final: string): Option<bool>
    decreases |ms|
  {
    if |ms| == 0 then
      if final == [] then Some(true)
      else if 0 <= offset <= |value| then Some(FinalMatches(value, offset, final))
      else None
    else if !(0 <= offset <= |value|) then None
    else match Find(value[offset..], ms[0])
      case None => Some(false)
      case Some(p) => IntermediatesMatchAsWritten(value, |ms[0]| - (offset + p), ms[1..], final)
  }

  function SubstringMatchesAsWritten(value: string, initial: string, ms: seq<string>, final: string): Option<bool> {
    if !(|initial| <= |value| && value[..|initial|] == initial) then Some(false)
    else IntermediatesMatchAsWritten(value, |initial|, ms, final)
  }

  /**
   * With the offset as written, (k=*a*b*) matches the string "ba", although
   * "b" does not occur after "a"; the corrected search rejects it.
   */
  lemma SubstringOffsetCounterexample()
    ensures SubstringMatchesAsWritten("ba", "", ["a", "b"], "") == Some(true)
    ensures !SubstringMatches("ba", "", ["a", "b"], "")
  {
    assert "ba"[..1] == "b" && "ba"[1..] == "a" && "a"[..1] == "a";
    assert Find("a", "a") == Some(0);
    assert Find("ba", "a") == Some(1);
    assert Find("ba", "b") == Some(0);
    assert "ba"[2..] == "";
    assert Find("", "b") == None;
  }

  /**
   * The same difference seen by filter_matches: with the corrected offset
   * (k=*a*b*) does not match the properties k="ba", while the pair test as
   * written accepts that value.
   */
  lemma SubstringFilterCounterexample()
    ensures var f := Substring("k", "", ["a", "b"], "");
            var ps := [Pair("k", PValues.Str("ba"))];
            !Matches(f, ps) && SubstringMatchesAsWritten(ps[0].value.s, f.initial, f.intermediates, f.final) == Some(true)
  {
    var f := Substring("k", "", ["a", "b"], "");
    var ps := [Pair("k", PValues.Str("ba"))];
    SubstringOffsetCounterexample();
    assert !SubstringHit(f, ps[0]);
    assert ps[1..] == [];
  }

  /** One pair passes the comparison test of comparison_matches_cb. */
  function ComparisonHit(f: Filter, p: Pair): bool
    requires f.Equal? || f.GreaterThan? || f.LessThan?
  {
    p.name == f.key &&
    match f
    case Equal(_, v) => ValueText(p.value) == v
    case GreaterThan(_, n) => p.value.Int64? && p.value.i > n
    case LessThan(_, n) => p.value.Int64? && p.value.i < n
  }

  /** One pair passes the test of substring_matches_cb. */
  function SubstringHit(f: Filter, p: Pair): bool
    requires f.Substring?
  {
    p.name == f.key && p.value.Str? && SubstringMatches(p.value.s, f.initial, f.intermediates, f.final)
  }

  /** filter_matches. */
  function Matches(f: Filter, ps: seq<Pair>): bool
    decreases f, 1
  {
    match f
    case Equal(_, _) => Scan(ps, p => ComparisonHit(f, p))
    case GreaterThan(_, _) => Scan(ps, p => ComparisonHit(f, p))
    case LessThan(_, _) => Scan(ps, p => ComparisonHit(f, p))
    case Present(k) => HasName(ps, k)
    case Substring(_, _, _, _) => Scan(ps, p => SubstringHit(f, p))
    case Not(g) => !Matches(g, ps)
    case And(gs) => AllMatch(gs, ps)
    case Or(gs) => AnyMatches(gs, ps)
  }

  /** and_matches: stops at the first operand that does not match. */
  function AllMatch(gs: seq<Filter>, ps: seq<Pair>): bool
    decreases gs, 0
  {
    |gs| == 0 || (Matches(gs[0], ps) && AllMatch(gs[1..], ps))
  }

  /** or_matches: stops at the first operand that matches. */
  function AnyMatches(gs: seq<Filter>, ps: seq<Pair>): bool
    decreases gs, 0
  {
    |gs| > 0 && (Matches(gs[0], ps) || AnyMatches(gs[1..], ps))
  }

  lemma {:induction false} AllMatchForall(gs: seq<Filter>, ps: seq<Pair>)
    ensures AllMatch(gs, ps) <==> forall j :: 0 <= j < |gs| ==> Matches(gs[j], ps)
  {
    if |gs| > 0 {
      AllMatchForall(gs[1..], ps);
      assert forall j :: 1 <= j < |gs| ==> gs[j] == gs[1..][j - 1];
    }
  }

  lemma {:induction false} AnyMatchesExists(gs: seq<Filter>, ps: seq<Pair>)
    ensures AnyMatches(gs, ps) <==> exists j :: 0 <= j < |gs| && Matches(gs[j], ps)
  {
    if |gs| > 0 {
      AnyMatchesExists(gs[1..], ps);
      assert forall j :: 1 <= j < |gs| ==> gs[j] == gs[1..][j - 1];
    }
  }

  /** The boolean connectives: `!` negates, `&` needs every operand, `|` some operand. */
  lemma BooleanSemantics(gs: seq<Filter>, g: Filter, ps: seq<Pair>)
    ensures Matches(Not(g), ps) <==> !Matches(g, ps)
    ensures Matches(And(gs), ps) <==> forall j :: 0 <= j < |gs| ==> Matches(gs[j], ps)
    ensures Matches(Or(gs), ps) <==> exists j :: 0 <= j < |gs| && Matches(gs[j], ps)
  {
    AllMatchForall(gs, ps);
    AnyMatchesExists(gs, ps);
  }

  /**
   * (k=v) matches iff some value stored under k reads as v, integers through
   * their decimal rendering.
   */
  lemma EqualSemantics(k: string, v: string, ps: seq<Pair>)
    ensures Matches(Equal(k, v), ps) <==> exists x :: x in ValuesOf(ps, k) && ValueText(x) == v
  {
    var f := Equal(k, v);
    ScanExists(ps, p => ComparisonHit(f, p));
    if Matches(f, ps) {
      var i :| 0 <= i < |ps| && ComparisonHit(f, ps[i]);
      ValuesOfSound(ps, k, ps[i].value);
    }
    if exists x :: x in ValuesOf(ps, k) && ValueText(x) == v {
      var x :| x in ValuesOf(ps, k) && ValueText(x) == v;
      ValuesOfSound(ps, k, x);
      var i :| 0 <= i < |ps| && ps[i] == Pair(k, x);
      assert ComparisonHit(f, ps[i]);
    }
  }

  /**
   * (k>n) and (k<n) compare only integer values, strictly; a string value
   * never satisfies them.
   */
  lemma OrderSemantics(k: string, n: int, ps: seq<Pair>)
    ensures Matches(GreaterThan(k, n), ps) <==> exists x :: Int64(x) in ValuesOf(ps, k) && x > n
    ensures Matches(LessThan(k, n), ps) <==> exists x :: Int64(x) in ValuesOf(ps, k) && x < n
  {
    var gt, lt := GreaterThan(k, n), LessThan(k, n);
    ScanExists(ps, p => ComparisonHit(gt, p));
    ScanExists(ps, p => ComparisonHit(lt, p));
    if Matches(gt, ps) {
      var i :| 0 <= i < |ps| && ComparisonHit(gt, ps[i]);
      ValuesOfSound(ps, k, ps[i].value);
    }
    if exists x :: Int64(x) in ValuesOf(ps, k) && x > n {
      var x :| Int64(x) in ValuesOf(ps, k) && x > n;
      ValuesOfSound(ps, k, Int64(x));
      var i :| 0 <= i < |ps| && ps[i] == Pair(k, Int64(x));
      assert ComparisonHit(gt, ps[i]);
    }
    if Matches(lt, ps) {
      var i :| 0 <= i < |ps| && ComparisonHit(lt, ps[i]);
      ValuesOfSound(ps, k, ps[i].value);
    }
    if exists x :: Int64(x) in ValuesOf(ps, k) && x < n {
      var x :| Int64(x) in ValuesOf(ps, k) && x < n;
      ValuesOfSound(ps, k, Int64(x));
      var i :| 0 <= i < |ps| && ps[i] == Pair(k, Int64(x));
      assert ComparisonHit(lt, ps[i]);
    }
  }

  /**
   * A substring filter matches iff some string value under its key is the
   * initial part, the intermediates in order, then the final part.
   */
  lemma SubstringSemantics(k: string, i: string, ms: seq<string>, fi: string, ps: seq<Pair>)
    ensures Matches(Substring(k, i, ms, fi), ps)
        <==> exists s :: PValue.Str(s) in ValuesOf(ps, k) && SubstringSpec(s, i, ms, fi)
  {
    var f := Substring(k, i, ms, fi);
    ScanExists(ps, p => SubstringHit(f, p));
    if Matches(f, ps) {
      var j :| 0 <= j < |ps| && SubstringHit(f, ps[j]);
      ValuesOfSound(ps, k, ps[j].value);
      SubstringMatchesSpec(ps[j].value.s, i, ms, fi);
    }
    if exists s :: PValue.Str(s) in ValuesOf(ps, k) && SubstringSpec(s, i, ms, fi) {
      var s :| PValue.Str(s) in ValuesOf(ps, k) && SubstringSpec(s, i, ms, fi);
      ValuesOfSound(ps, k, PValue.Str(s));
      SubstringMatchesSpec(s, i, ms, fi);
      var j :| 0 <= j < |ps| && ps[j] == Pair(k, PValue.Str(s));
      assert SubstringHit(f, ps[j]);
    }
  }
}
