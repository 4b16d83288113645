// The recursive-descent parser of src/sd/filter.c (parse_str, parse_int,
// parse_not, parse_substring_and_present, parse_equal,
// parse_greater_and_less_than, parse_simple, parse_composite, parse,
// filter_parse), stated on the unread suffix of the input: every parsing
// function takes what is left of the string and returns what it built
// together with what is left after it.
//
// input_expect at src/sd/filter.c:710-718 advances past the current
// character without comparing it to the expected one. The `strict` flag
// selects between that behaviour (false) and the evidently intended one,
// which also checks the character (true); ParseFilter is the corrected
// parser the rest of the model uses.
module FilterParse {
  import opened Wrappers
  import opened Decimal
  import opened Filter

  datatype Parsed<T> = Parsed(value: T, rest: string)

  /** `u` is what is left of `t` after reading some prefix of it. */
  predicate IsSuffix(u: string, t: string) {
    |u| <= |t| && t[|t| - |u|..] == u
  }

  /** input_current: the next character, or None at the terminator. */
  function Current(t: string): (r: Option<char>)
    ensures r.Some? <==> |t| > 0
  {
    if |t| == 0 then None else Some(t[0])
  }

  /** input_expect: as written (`strict` false) any character is consumed. */
  function Expect(t: string, c: char, strict: bool): (r: Option<string>)
    ensures r.Some? ==> |t| > 0 && r.value == t[1..]
    ensures r.None? <==> |t| == 0 || (strict && t[0] != c)
  {
    if |t| == 0 then None
    else if strict && t[0] != c then None
    else Some(t[1..])
  }

  /** isspace in the C locale. */
  predicate IsSpace(c: char) {
    c == ' ' || c == '\t' || c == '\n' || c == '\U{000B}' || c == '\U{000C}' || c == '\r'
  }

  /**
   * parse_str: characters up to the first unescaped special character, with
   * each backslash dropped from before the special character it escapes. A
   * backslash before an ordinary character, or the end of the input before
   * a special character, is an error.
   */
  function ParseStr(t: string): (r: Option<Parsed<string>>)
    ensures r.Some? ==> |r.value.rest| <= |t| && |r.value.rest| > 0 && IsSpecial(r.value.rest[0])
  {
    ParseStrLoop(t, false, [])
  }

  function ParseStrLoop(t: string, escaped: bool, acc: string): (r: Option<Parsed<string>>)
    ensures r.Some? ==> |r.value.rest| <= |t| && |r.value.rest| > 0 && IsSpecial(r.value.rest[0])
    decreases |t|
  {
    if |t| == 0 then None
    else
      var c := t[0];
      if escaped then
        if !IsSpecial(c) then None else ParseStrLoop(t[1..], false, acc + [c])
      else if c == ESCAPE then ParseStrLoop(t[1..], true, acc)
      else if IsSpecial(c) then Some(Parsed(acc, t))
      else ParseStrLoop(t[1..], false, acc + [c])
  }

  /**
   * parse_int: a string that is non-empty, does not start with white space
   * and is entirely consumed by strtoll.
   */
  function ParseInt(t: string): (r: Option<Parsed<int>>)
    ensures r.Some? ==> |r.value.rest| <= |t| && IsInt64(r.value.value)
  {
    match ParseStr(t)
    case None => None
    case Some(Parsed(v, u)) =>
      if |v| == 0 || IsSpace(v[0]) then None
      else match StrToInt64(v)
        case None => None
        case Some(n) => Some(Parsed(n, u))
  }

  /**
   * parse_substring_and_present, from just after the first "*": further
   * "*"-terminated non-empty parts are intermediates, the part before the
   * closing character is the final one. With no initial, intermediate or
   * final part the filter is a presence test.
   */
  function ParseSubstringAndPresent(t: string, key: string, initial: string, ms: seq<string>): (r: Option<Parsed<Filter>>)
    ensures r.Some? ==> |r.value.rest| <= |t|
    decreases |t|
  {
    match ParseStr(t)
    case None => None
    case Some(Parsed(v, u)) =>
      if u[0] == ANY then
        if |v| == 0 then None
        else ParseSubstringAndPresent(u[1..], key, initial, ms + [v])
      else Some(Parsed(SubstringOrPresent(key, initial, ms, v), u))
  }

  /** parse_equal: "=" then a value; a "*" after it starts a substring or presence test. */
  function ParseEqual(t: string, key: string, strict: bool): (r: Option<Parsed<Filter>>)
    ensures r.Some? ==> |r.value.rest| <= |t|
  {
    match Expect(t, EQUAL, strict)
    case None => None
    case Some(u) =>
      match ParseStr(u)
      case None => None
      case Some(Parsed(v, w)) =>
        if w[0] == ANY then ParseSubstringAndPresent(w[1..], key, v, [])
        else Some(Parsed(Equal(key, v), w))
  }

  /** parse_greater_and_less_than. */
  function ParseOrder(t: string, key: string, greater: bool, strict: bool): (r: Option<Parsed<Filter>>)
    ensures r.Some? ==> |r.value.rest| <= |t|
  {
    match Expect(t, if greater then GREATER_THAN else LESS_THAN, strict)
    case None => None
    case Some(u) =>
      match ParseInt(u)
      case None => None
      case Some(Parsed(n, w)) =>
        Some(Parsed(if greater then GreaterThan(key, n) else LessThan(key, n), w))
  }

  /** parse_simple: a non-empty key, then "=", ">" or "<". */
  function ParseSimple(t: string, strict: bool): (r: Option<Parsed<Filter>>)
    ensures r.Some? ==> |r.value.rest| <= |t|
  {
    match ParseStr(t)
    case None => None
    case Some(Parsed(key, u)) =>
      if |key| == 0 then None
      else if u[0] == EQUAL then ParseEqual(u, key, strict)
      else if u[0] == GREATER_THAN then ParseOrder(u, key, true, strict)
      else if u[0] == LESS_THAN then ParseOrder(u, key, false, strict)
      else None
  }

  /** parse: dispatch on the first character of the expression body. */
  function Parse(t: string, strict: bool): (r: Option<Parsed<Filter>>)
    ensures r.Some? ==> |r.value.rest| <= |t|
    decreases |t|, 2
  {
    if |t| == 0 then None
    else if t[0] == AND then ParseComposite(t, true, strict)
    else if t[0] == OR then ParseComposite(t, false, strict)
    else if t[0] == NOT then ParseNot(t, strict)
    else ParseSimple(t, strict)
  }

  /** parse_not: "!(" operand ")". */
  function ParseNot(t: string, strict: bool): (r: Option<Parsed<Filter>>)
    ensures r.Some? ==> |r.value.rest| <= |t|
    decreases |t|, 1
  {
    match Expect(t, NOT, strict)
    case None => None
    case Some(u) =>
      match Expect(u, BEGIN_EXPR, strict)
      case None => None
      case Some(v) =>
        match Parse(v, strict)
        case None => None
        case Some(Parsed(g, w)) =>
          match Expect(w, END_EXPR, strict)
          case None => None
          case Some(x) => Some(Parsed(Not(g), x))
  }

  /**
   * parse_composite: the result of its input_expect is ignored, so the input
   * is left where it was when that fails.
   */
  function ParseComposite(t: string, isAnd: bool, strict: bool): (r: Option<Parsed<Filter>>)
    ensures r.Some? ==> |r.value.rest| <= |t|
    decreases |t|, 1
  {
    var u := match Expect(t, if isAnd then AND else OR, strict)
      case None => t
      case Some(u) => u;
    Operands(u, isAnd, [], strict)
  }

  /**
   * The operand loop of parse_composite: "(" operand ")" repeatedly, until a
   * ")" that is left unread; fewer than two operands is an error.
   */
  function Operands(t: string, isAnd: bool, acc: seq<Filter>, strict: bool): (r: Option<Parsed<Filter>>)
    ensures r.Some? ==> |r.value.rest| <= |t|
    decreases |t|, 0
  {
    if |t| == 0 then None
    else if t[0] == BEGIN_EXPR then
      match Parse(t[1..], strict)
      case None => None
      case Some(Parsed(g, w)) =>
        match Expect(w, END_EXPR, strict)
        case None => None
        case Some(x) => Operands(x, isAnd, acc + [g], strict)
    else if t[0] == END_EXPR then
      if |acc| < 2 then None
      else Some(Parsed(if isAnd then And(acc) else Or(acc), t))
    else None
  }

  /** filter_parse: "(" expression ")" and nothing after it. */
  function FilterParse(s: string, strict: bool): Option<Filter> {
    match Expect(s, BEGIN_EXPR, strict)
    case None => None
    case Some(u) =>
      match Parse(u, strict)
      case None => None
      case Some(Parsed(f, w)) =>
        match Expect(w, END_EXPR, strict)
        case None => None
        case Some(x) => if |x| > 0 then None else Some(f)
  }

  /** The parser with input_expect checking the character. */
  function ParseFilter(s: string): Option<Filter> {
    FilterParse(s, true)
  }

  /** The parser as written, with input_expect consuming any character. */
  function ParseFilterAsWritten(s: string): Option<Filter> {
    FilterParse(s, false)
  }

  /** filter_is_valid. */
  predicate IsValid(s: string) {
    ParseFilter(s).Some?
  }

  // ------------------------------------------------------------ round trip

  /** parse_str undoes filter_escape, stopping at the special character that follows. */
  lemma {:induction false} ParseStrLoopEscape(x: string, u: string, acc: string)
    requires |u| > 0 && IsSpecial(u[0]) && u[0] != ESCAPE
    ensures ParseStrLoop(Escape(x) + u, false, acc) == Some(Parsed(acc + x, u))
  {
    if |x| == 0 {
      assert Escape(x) + u == u;
      assert acc + x == acc;
    } else {
      var t := Escape(x) + u;
      var tail := Escape(x[1..]) + u;
      ParseStrLoopEscape(x[1..], u, acc + [x[0]]);
      HeadTail(acc, x);
      EscapeHead(x, u);
      if IsSpecial(x[0]) {
        assert t[1..][1..] == tail;
      } else {
        assert t[1..] == tail;
      }
    }
  }

  /** The escape of a non-empty string, followed by `u`, is its first character's escape, then the rest's. */
  lemma EscapeHead(x: string, u: string)
    requires |x| > 0
    ensures var t := Escape(x) + u;
      if IsSpecial(x[0]) then |t| >= 2 && t[0] == ESCAPE && t[1] == x[0] && t[2..] == Escape(x[1..]) + u
      else |t| >= 1 && t[0] == x[0] && t[1..] == Escape(x[1..]) + u
  {
    var p := if IsSpecial(x[0]) then [ESCAPE, x[0]] else [x[0]];
    assert Escape(x) == p + Escape(x[1..]);
    PrefixThen(p, Escape(x[1..]), u);
  }

  lemma PrefixThen(p: string, e: string, u: string)
    ensures var t := p + e + u;
      |t| >= |p| && t[..|p|] == p && t[|p|..] == e + u
  {
    assert p + e + u == p + (e + u);
  }

  lemma ParseStrEscape(x: string, u: string)
    requires |u| > 0 && IsSpecial(u[0]) && u[0] != ESCAPE
    ensures ParseStr(Escape(x) + u) == Some(Parsed(x, u))
  {
    ParseStrLoopEscape(x, u, []);
    assert [] + x == x;
  }

  /** parse_int reads back the decimal rendering of any int64. */
  lemma ParseIntDecimal(n: int, u: string)
    requires IsInt64(n) && |u| > 0 && IsSpecial(u[0]) && u[0] != ESCAPE
    ensures ParseInt(Escape(IntToString(n)) + u) == Some(Parsed(n, u))
  {
    EscapeDecimal(n);
    ParseStrEscape(IntToString(n), u);
    var v := IntToString(n);
    assert IsDigit(v[0]) || v[0] == '-';
    StrToInt64RoundTrip(n);
  }

  /** The intermediate and final parts read back after the first "*". */
  lemma {:induction false} SubstringRoundTrip(key: string, initial: string, ms: seq<string>, acc: seq<string>, final: string, u: string)
    requires forall j :: 0 <= j < |ms| ==> ms[j] != []
    requires |u| > 0 && u[0] == END_EXPR
    ensures ParseSubstringAndPresent(IntermediatesStr(ms) + Escape(final) + u, key, initial, acc)
         == Some(Parsed(SubstringOrPresent(key, initial, acc + ms, final), u))
    decreases |ms|
  {
    if |ms| == 0 {
      assert IntermediatesStr(ms) + Escape(final) + u == Escape(final) + u;
      ParseStrEscape(final, u);
      assert acc + ms == acc;
    } else {
      SubstringRoundTrip(key, initial, ms[1..], acc + [ms[0]], final, u);
      SubstringCons(key, initial, ms, acc, final, u);
    }
  }

  /** The round trip for a list of parts follows from the one for its tail. */
  lemma SubstringCons(key: string, initial: string, ms: seq<string>, acc: seq<string>, final: string, u: string)
    requires |ms| > 0 && ms[0] != []
    requires ParseSubstringAndPresent(IntermediatesStr(ms[1..]) + Escape(final) + u, key, initial, acc + [ms[0]])
          == Some(Parsed(SubstringOrPresent(key, initial, acc + [ms[0]] + ms[1..], final), u))
    ensures ParseSubstringAndPresent(IntermediatesStr(ms) + Escape(final) + u, key, initial, acc)
         == Some(Parsed(SubstringOrPresent(key, initial, acc + ms, final), u))
  {
    var rest := IntermediatesStr(ms[1..]) + Escape(final) + u;
    IntermediatesHead(ms, Escape(final), u);
    SubstringStep(key, initial, ms[0], rest, acc);
    HeadTail(acc, ms);
  }

  lemma HeadTail<T>(acc: seq<T>, xs: seq<T>)
    requires |xs| > 0
    ensures acc + [xs[0]] + xs[1..] == acc + xs
  {
    assert xs == [xs[0]] + xs[1..];
  }

  lemma IntermediatesHead(ms: seq<string>, e: string, u: string)
    requires |ms| > 0
    ensures IntermediatesStr(ms) + e + u == Escape(ms[0]) + ([ANY] + (IntermediatesStr(ms[1..]) + e + u))
  {
    Regroup4(Escape(ms[0]), [ANY], IntermediatesStr(ms[1..]), e, u);
  }

  lemma Regroup4(a: string, b: string, c: string, d: string, z: string)
    ensures a + b + c + d + z == a + (b + (c + d + z))
  {
  }

  /** One intermediate part, followed by "*", read back. */
  lemma SubstringStep(key: string, initial: string, m: string, rest: string, acc: seq<string>)
    requires m != []
    ensures ParseSubstringAndPresent(Escape(m) + ([ANY] + rest), key, initial, acc)
         == ParseSubstringAndPresent(rest, key, initial, acc + [m])
  {
    ParseStrEscape(m, [ANY] + rest);
    assert ([ANY] + rest)[1..] == rest;
  }

  /** What parse_substring_and_present builds from the parts it read. */
  function SubstringOrPresent(key: string, initial: string, ms: seq<string>, final: string): Filter {
    if initial == [] && ms == [] && final == [] then Present(key) else Substring(key, initial, ms, final)
  }

  /** The printed key and operator of a simple filter read back; what follows the operator is left. */
  lemma SimpleStart(k: string, op: char, after: string, strict: bool)
    requires k != [] && (op == EQUAL || op == GREATER_THAN || op == LESS_THAN)
    ensures var t := Escape(k) + ([op] + after);
      Parse(t, strict) == ParseSimple(t, strict)
      && ParseStr(t) == Some(Parsed(k, [op] + after))
      && Expect([op] + after, op, strict) == Some(after)
  {
    ParseStrEscape(k, [op] + after);
    assert ([op] + after)[1..] == after;
  }

  lemma EqualRoundTrip(k: string, v: string, u: string, strict: bool)
    requires k != [] && |u| > 0 && u[0] == END_EXPR
    ensures Parse(Body(Equal(k, v)) + u, strict) == Some(Parsed(Equal(k, v), u))
  {
    var after := Escape(v) + u;
    Nest3(Escape(k), [EQUAL], Escape(v), u);
    SimpleStart(k, EQUAL, after, strict);
    ParseStrEscape(v, u);
  }

  lemma OrderRoundTrip(k: string, n: int, greater: bool, u: string, strict: bool)
    requires k != [] && IsInt64(n) && |u| > 0 && u[0] == END_EXPR
    ensures var f := if greater then GreaterThan(k, n) else LessThan(k, n);
      Parse(Body(f) + u, strict) == Some(Parsed(f, u))
  {
    var op := if greater then GREATER_THAN else LESS_THAN;
    var f := if greater then GreaterThan(k, n) else LessThan(k, n);
    var after := Escape(IntToString(n)) + u;
    Nest3(Escape(k), [op], Escape(IntToString(n)), u);
    assert Body(f) == Escape(k) + [op] + Escape(IntToString(n));
    SimpleStart(k, op, after, strict);
    ParseIntDecimal(n, u);
  }

  /** After "=", a value followed by "*" hands over to parse_substring_and_present. */
  lemma EqualThenAny(k: string, i: string, tail: string, strict: bool)
    ensures ParseEqual([EQUAL] + (Escape(i) + ([ANY] + tail)), k, strict)
         == ParseSubstringAndPresent(tail, k, i, [])
  {
    assert ([EQUAL] + (Escape(i) + ([ANY] + tail)))[1..] == Escape(i) + ([ANY] + tail);
    ParseStrEscape(i, [ANY] + tail);
    assert ([ANY] + tail)[1..] == tail;
  }

  /** The printed form of a substring filter (a presence test when every part is empty) reads back. */
  lemma SubstringFilterRoundTrip(k: string, i: string, ms: seq<string>, fi: string, u: string, strict: bool)
    requires k != [] && (forall j :: 0 <= j < |ms| ==> ms[j] != []) && |u| > 0 && u[0] == END_EXPR
    ensures Parse(Escape(k) + ([EQUAL] + (Escape(i) + ([ANY] + (IntermediatesStr(ms) + Escape(fi) + u)))), strict)
         == Some(Parsed(SubstringOrPresent(k, i, ms, fi), u))
  {
    var tail := IntermediatesStr(ms) + Escape(fi) + u;
    var after := Escape(i) + ([ANY] + tail);
    SimpleStart(k, EQUAL, after, strict);
    EqualThenAny(k, i, tail, strict);
    SubstringRoundTrip(k, i, ms, [], fi, u);
    assert [] + ms == ms;
  }

  /** The non-composite cases of the round trip. */
  lemma SimpleRoundTrip(f: Filter, u: string, strict: bool)
    requires WellFormed(f) && |u| > 0 && u[0] == END_EXPR
    requires f.Equal? || f.GreaterThan? || f.LessThan? || f.Present? || f.Substring?
    ensures Parse(Body(f) + u, strict) == Some(Parsed(f, u))
  {
    match f
    case Equal(k, v) => EqualRoundTrip(k, v, u, strict);
    case GreaterThan(k, n) => OrderRoundTrip(k, n, true, u, strict);
    case LessThan(k, n) => OrderRoundTrip(k, n, false, u, strict);
    case Present(k) => PresentRoundTrip(k, u, strict);
    case Substring(k, i, ms, fi) => SubstringBodyRoundTrip(k, i, ms, fi, u, strict);
  }

  lemma PresentRoundTrip(k: string, u: string, strict: bool)
    requires k != [] && |u| > 0 && u[0] == END_EXPR
    ensures Parse(Body(Present(k)) + u, strict) == Some(Parsed(Present(k), u))
  {
    SubstringFilterRoundTrip(k, [], [], [], u, strict);
    var e: string := [];
    assert Escape(e) == [] && IntermediatesStr([]) == [];
    assert Escape(k) + ([EQUAL] + (Escape(e) + ([ANY] + (IntermediatesStr([]) + Escape(e) + u))))
        == Body(Present(k)) + u;
  }

  lemma SubstringBodyRoundTrip(k: string, i: string, ms: seq<string>, fi: string, u: string, strict: bool)
    requires WellFormed(Substring(k, i, ms, fi)) && |u| > 0 && u[0] == END_EXPR
    ensures Parse(Body(Substring(k, i, ms, fi)) + u, strict) == Some(Parsed(Substring(k, i, ms, fi), u))
  {
    SubstringFilterRoundTrip(k, i, ms, fi, u, strict);
    Regroup(Escape(k), [EQUAL], Escape(i), [ANY], IntermediatesStr(ms), Escape(fi), u);
  }

  lemma Regroup(a: string, b: string, c: string, d: string, e: string, f: string, u: string)
    ensures a + b + c + d + e + f + u == a + (b + (c + (d + (e + f + u))))
  {
  }

  /** Every well-formed filter's printed body parses back to it, leaving what follows unread. */
  lemma {:induction false} BodyRoundTrip(f: Filter, u: string, strict: bool)
    requires WellFormed(f) && |u| > 0 && u[0] == END_EXPR
    ensures Parse(Body(f) + u, strict) == Some(Parsed(f, u))
    decreases f, 1
  {
    match f
    case Not(g) => NotBodyRoundTrip(f, u, strict);
    case And(gs) => CompositeBodyRoundTrip(f, u, strict);
    case Or(gs) => CompositeBodyRoundTrip(f, u, strict);
    case _ =>
      SimpleRoundTrip(f, u, strict);
  }

  lemma {:induction false} NotBodyRoundTrip(f: Filter, u: string, strict: bool)
    requires f.Not? && WellFormed(f) && |u| > 0 && u[0] == END_EXPR
    ensures Parse(Body(f) + u, strict) == Some(Parsed(f, u))
    decreases f, 0
  {
    var g := f.operand;
    var inner := Body(g) + ([END_EXPR] + u);
    assert Body(f) + u == [NOT] + ([BEGIN_EXPR] + inner);
    assert ([NOT] + ([BEGIN_EXPR] + inner))[1..] == [BEGIN_EXPR] + inner;
    assert ([BEGIN_EXPR] + inner)[1..] == inner;
    BodyRoundTrip(g, [END_EXPR] + u, strict);
    assert ([END_EXPR] + u)[1..] == u;
  }

  lemma {:induction false} CompositeBodyRoundTrip(f: Filter, u: string, strict: bool)
    requires (f.And? || f.Or?) && WellFormed(f) && |u| > 0 && u[0] == END_EXPR
    ensures Parse(Body(f) + u, strict) == Some(Parsed(f, u))
    decreases f, 0
  {
    var gs := f.operands;
    var op := if f.And? then AND else OR;
    assert Body(f) + u == [op] + (OperandsStr(gs) + u);
    assert ([op] + (OperandsStr(gs) + u))[1..] == OperandsStr(gs) + u;
    OperandsRoundTrip(gs, [], f.And?, u, strict);
    assert [] + gs == gs;
  }

  lemma {:induction false} OperandsRoundTrip(gs: seq<Filter>, acc: seq<Filter>, isAnd: bool, u: string, strict: bool)
    requires AllWellFormed(gs) && |acc + gs| >= 2 && |u| > 0 && u[0] == END_EXPR
    ensures Operands(OperandsStr(gs) + u, isAnd, acc, strict)
         == Some(Parsed(if isAnd then And(acc + gs) else Or(acc + gs), u))
    decreases gs, 0
  {
    if |gs| == 0 {
      assert OperandsStr(gs) + u == u;
      assert acc + gs == acc;
    } else {
      var rest := OperandsStr(gs[1..]) + u;
      assert WellFormed(gs[0]);
      BodyRoundTrip(gs[0], [END_EXPR] + rest, strict);
      OperandStep(gs, acc, isAnd, u, strict);
      assert AllWellFormed(gs[1..]) by {
        forall j | 0 <= j < |gs[1..]| ensures WellFormed(gs[1..][j]) {
          assert gs[1..][j] == gs[j + 1];
        }
      }
      assert acc + [gs[0]] + gs[1..] == acc + gs;
      OperandsRoundTrip(gs[1..], acc + [gs[0]], isAnd, u, strict);
    }
  }

  /** One operand of the loop: once its body parses back, the loop goes on with the others. */
  lemma OperandStep(gs: seq<Filter>, acc: seq<Filter>, isAnd: bool, u: string, strict: bool)
    requires |gs| > 0
    requires var rest := OperandsStr(gs[1..]) + u;
      Parse(Body(gs[0]) + ([END_EXPR] + rest), strict) == Some(Parsed(gs[0], [END_EXPR] + rest))
    ensures Operands(OperandsStr(gs) + u, isAnd, acc, strict)
         == Operands(OperandsStr(gs[1..]) + u, isAnd, acc + [gs[0]], strict)
  {
    var rest := OperandsStr(gs[1..]) + u;
    var inner := Body(gs[0]) + ([END_EXPR] + rest);
    assert OperandsStr(gs) == [BEGIN_EXPR] + Body(gs[0]) + [END_EXPR] + OperandsStr(gs[1..]);
    Nest4([BEGIN_EXPR], Body(gs[0]), [END_EXPR], OperandsStr(gs[1..]), u);
    assert ([BEGIN_EXPR] + inner)[1..] == inner;
    assert ([END_EXPR] + rest)[1..] == rest;
  }

  lemma Nest3(a: string, b: string, c: string, z: string)
    ensures a + b + c + z == a + (b + (c + z))
  {
  }

  lemma Nest4(a: string, b: string, c: string, d: string, z: string)
    ensures a + b + c + d + z == a + (b + (c + (d + z)))
  {
  }

  /** The canonical string of a well-formed filter parses back to it, with either input_expect. */
  lemma RoundTrip(f: Filter, strict: bool)
    requires WellFormed(f)
    ensures FilterParse(Str(f), strict) == Some(f)
  {
    var body := Body(f) + [END_EXPR];
    assert Str(f) == [BEGIN_EXPR] + body;
    assert ([BEGIN_EXPR] + body)[1..] == body;
    BodyRoundTrip(f, [END_EXPR], strict);
    assert [END_EXPR][1..] == [];
  }

  // ------------------------------------------------------- what is accepted

  lemma SuffixTrans(u: string, v: string, t: string)
    requires IsSuffix(u, v) && IsSuffix(v, t)
    ensures IsSuffix(u, t)
  {
    assert t[|t| - |u|..] == t[|t| - |v|..][|v| - |u|..];
  }

  lemma SuffixTail(t: string)
    requires |t| > 0
    ensures IsSuffix(t[1..], t)
  {
  }

  /** parse_str only ever moves forward through the input. */
  lemma {:induction false} ParseStrSuffix(t: string, escaped: bool, acc: string)
    ensures ParseStrLoop(t, escaped, acc).Some? ==> IsSuffix(ParseStrLoop(t, escaped, acc).value.rest, t)
    decreases |t|
  {
    if |t| > 0 {
      ParseStrSuffix(t[1..], false, acc + [t[0]]);
      ParseStrSuffix(t[1..], true, acc);
      var r := ParseStrLoop(t, escaped, acc);
      if r.Some? && r.value.rest != t {
        SuffixTrans(r.value.rest, t[1..], t);
      }
    }
  }

  /** What parse_substring_and_present builds is well formed. */
  lemma {:induction false} SubstringSound(t: string, key: string, initial: string, ms: seq<string>)
    requires key != [] && forall j :: 0 <= j < |ms| ==> ms[j] != []
    ensures var r := ParseSubstringAndPresent(t, key, initial, ms);
      r.Some? ==> WellFormed(r.value.value) && IsSuffix(r.value.rest, t)
    decreases |t|
  {
    ParseStrSuffix(t, false, []);
    match ParseStr(t)
    case None =>
    case Some(Parsed(v, u)) =>
      if u[0] == ANY && |v| > 0 {
        SubstringSound(u[1..], key, initial, ms + [v]);
        var r := ParseSubstringAndPresent(t, key, initial, ms);
        if r.Some? {
          SuffixTrans(r.value.rest, u[1..], u);
          SuffixTrans(r.value.rest, u, t);
        }
      }
  }

  lemma EqualSound(u: string, key: string)
    requires key != []
    ensures var r := ParseEqual(u, key, true);
      r.Some? ==> WellFormed(r.value.value) && IsSuffix(r.value.rest, u) && ParseEqual(u, key, false) == r
  {
    var r := ParseEqual(u, key, true);
    if r.Some? {
      var w := u[1..];
      ParseStrSuffix(w, false, []);
      var x := ParseStr(w).value.rest;
      if x[0] == ANY {
        SubstringSound(x[1..], key, ParseStr(w).value.value, []);
        SuffixTrans(r.value.rest, x[1..], x);
      }
      SuffixTrans(r.value.rest, x, w);
      SuffixTrans(r.value.rest, w, u);
    }
  }

  lemma OrderSound(u: string, key: string, greater: bool)
    requires key != []
    ensures var r := ParseOrder(u, key, greater, true);
      r.Some? ==> WellFormed(r.value.value) && IsSuffix(r.value.rest, u) && ParseOrder(u, key, greater, false) == r
  {
    var r := ParseOrder(u, key, greater, true);
    if r.Some? {
      var w := u[1..];
      ParseStrSuffix(w, false, []);
      SuffixTrans(r.value.rest, w, u);
    }
  }

  /** parse_simple builds well-formed filters, and the same ones whichever input_expect is used. */
  lemma SimpleSound(t: string)
    ensures var r := ParseSimple(t, true);
      r.Some? ==> WellFormed(r.value.value) && IsSuffix(r.value.rest, t) && ParseSimple(t, false) == r
  {
    var r := ParseSimple(t, true);
    if r.Some? {
      ParseStrSuffix(t, false, []);
      var key := ParseStr(t).value.value;
      var u := ParseStr(t).value.rest;
      if u[0] == EQUAL {
        EqualSound(u, key);
      } else {
        OrderSound(u, key, u[0] == GREATER_THAN);
      }
      SuffixTrans(r.value.rest, u, t);
    }
  }

  /**
   * Every filter the corrected parser returns is well formed (in particular
   * every "&" and "|" has at least two operands) and was read from a prefix
   * of the input; the parser as written returns the same filter on that
   * input: the correction only rejects more.
   */
  lemma {:induction false} ParseSound(t: string)
    ensures var r := Parse(t, true);
      r.Some? ==> WellFormed(r.value.value) && IsSuffix(r.value.rest, t) && Parse(t, false) == r
    decreases |t|, 2
  {
    if |t| == 0 {
    } else if t[0] == AND {
      CompositeSound(t, true);
    } else if t[0] == OR {
      CompositeSound(t, false);
    } else if t[0] == NOT {
      NotSound(t);
    } else {
      SimpleSound(t);
    }
  }

  lemma {:induction false} NotSound(t: string)
    ensures var r := ParseNot(t, true);
      r.Some? ==> WellFormed(r.value.value) && IsSuffix(r.value.rest, t) && ParseNot(t, false) == r
    decreases |t|, 1
  {
    if |t| >= 2 && t[0] == NOT && t[1] == BEGIN_EXPR {
      var v := t[1..][1..];
      ParseSound(v);
      var r := ParseNot(t, true);
      if r.Some? {
        var w := Parse(v, true).value.rest;
        SuffixTrans(r.value.rest, w, v);
        SuffixTrans(r.value.rest, v, t[1..]);
        SuffixTrans(r.value.rest, t[1..], t);
      }
    }
  }

  lemma {:induction false} CompositeSound(t: string, isAnd: bool)
    requires |t| > 0 && t[0] == (if isAnd then AND else OR)
    ensures var r := ParseComposite(t, isAnd, true);
      r.Some? ==> WellFormed(r.value.value) && IsSuffix(r.value.rest, t) && ParseComposite(t, isAnd, false) == r
    decreases |t|, 1
  {
    OperandsSound(t[1..], isAnd, []);
    var r := ParseComposite(t, isAnd, true);
    if r.Some? {
      SuffixTrans(r.value.rest, t[1..], t);
    }
  }

  lemma {:induction false} OperandsSound(t: string, isAnd: bool, acc: seq<Filter>)
    requires AllWellFormed(acc)
    ensures var r := Operands(t, isAnd, acc, true);
      r.Some? ==> WellFormed(r.value.value) && IsSuffix(r.value.rest, t) && Operands(t, isAnd, acc, false) == r
    decreases |t|, 0
  {
    if |t| > 0 && t[0] == BEGIN_EXPR {
      ParseSound(t[1..]);
      match Parse(t[1..], true)
      case None =>
      case Some(Parsed(g, w)) =>
        if |w| > 0 && w[0] == END_EXPR {
          WellFormedSnoc(acc, g);
          OperandsSound(w[1..], isAnd, acc + [g]);
          OperandsUnfold(t, isAnd, acc, g, w);
          var r := Operands(t, isAnd, acc, true);
          if r.Some? {
            SuffixTail(w);
            SuffixTail(t);
            SuffixTrans(r.value.rest, w[1..], w);
            SuffixTrans(r.value.rest, w, t[1..]);
            SuffixTrans(r.value.rest, t[1..], t);
          }
        }
    }
  }

  lemma WellFormedSnoc(acc: seq<Filter>, g: Filter)
    requires AllWellFormed(acc) && WellFormed(g)
    ensures AllWellFormed(acc + [g])
  {
    forall j | 0 <= j < |acc + [g]| ensures WellFormed((acc + [g])[j]) {
      if j < |acc| { assert (acc + [g])[j] == acc[j]; }
    }
  }

  /** One operand read, with either input_expect, when both read the same operand. */
  lemma OperandsUnfold(t: string, isAnd: bool, acc: seq<Filter>, g: Filter, w: string)
    requires |t| > 0 && t[0] == BEGIN_EXPR && |w| > 0 && w[0] == END_EXPR
    requires Parse(t[1..], true) == Some(Parsed(g, w)) && Parse(t[1..], false) == Some(Parsed(g, w))
    ensures Operands(t, isAnd, acc, true) == Operands(w[1..], isAnd, acc + [g], true)
    ensures Operands(t, isAnd, acc, false) == Operands(w[1..], isAnd, acc + [g], false)
  {
  }

  /**
   * filter_parse accepts only one parenthesised expression spanning the
   * whole input: it starts with "(", ends with ")", and the expression
   * read after the "(" leaves exactly that ")" unread. In particular any
   * leading or trailing character (a space, say) is rejected.
   */
  lemma WholeInput(s: string)
    ensures ParseFilter(s).Some? ==>
              |s| >= 2 && s[0] == BEGIN_EXPR && s[|s| - 1] == END_EXPR
              && Parse(s[1..], true) == Some(Parsed(ParseFilter(s).value, [END_EXPR]))
  {
    if ParseFilter(s).Some? {
      ParseSound(s[1..]);
      var w := Parse(s[1..], true).value.rest;
      assert |w| == 1 && w[0] == END_EXPR;
      assert w == [END_EXPR];
      assert s[|s| - 1] == s[1..][|s[1..]| - 1];
    }
  }

  /** Filters the corrected parser accepts are well formed, and the parser as written agrees on them. */
  lemma FilterParseSound(s: string)
    ensures ParseFilter(s).Some? ==>
              WellFormed(ParseFilter(s).value) && ParseFilterAsWritten(s) == ParseFilter(s)
  {
    if |s| > 0 {
      ParseSound(s[1..]);
    }
  }

  /**
   * A string comes back unchanged from filter_parse and filter_str exactly
   * when it is the canonical form of some well-formed filter.
   */
  lemma CanonicalForms(s: string)
    ensures (ParseFilter(s).Some? && Str(ParseFilter(s).value) == s)
        <==> exists f :: WellFormed(f) && Str(f) == s
  {
    if ParseFilter(s).Some? && Str(ParseFilter(s).value) == s {
      FilterParseSound(s);
    }
    if exists f :: WellFormed(f) && Str(f) == s {
      var f :| WellFormed(f) && Str(f) == s;
      RoundTrip(f, true);
    }
  }

  /** Printing and re-parsing a parsed filter gives it back. */
  lemma ReparseParsed(s: string)
    ensures ParseFilter(s).Some? ==> ParseFilter(Str(ParseFilter(s).value)) == ParseFilter(s)
  {
    if ParseFilter(s).Some? {
      FilterParseSound(s);
      RoundTrip(ParseFilter(s).value, true);
    }
  }

  /** filter_equal, comparing canonical strings, is equality of well-formed filters. */
  lemma FilterEqualIff(a: Filter, b: Filter)
    requires WellFormed(a) && WellFormed(b)
    ensures FilterEqual(a, b) <==> a == b
  {
    RoundTrip(a, true);
    RoundTrip(b, true);
  }

  /**
   * As written, the opening "(" is not checked: "Xa=b)" is accepted as
   * (a=b). The corrected parser rejects it.
   */
  lemma ExpectCounterexample()
    ensures ParseFilterAsWritten("Xa=b)") == Some(Equal("a", "b"))
    ensures ParseFilter("Xa=b)") == None
  {
    assert Expect("Xa=b)", BEGIN_EXPR, true) == None;
    assert Expect("Xa=b)", BEGIN_EXPR, false) == Some("a=b)");
    CounterexampleParse();
    assert Expect(")", END_EXPR, false) == Some([]);
  }

  /** The body "a=b)" parses as (a=b) with ")" left. */
  lemma CounterexampleParse()
    ensures Parse("a=b)", false) == Some(Parsed(Equal("a", "b"), ")"))
  {
    CounterexampleStrings();
    assert "=b)"[1..] == "b)";
    assert ParseEqual("=b)", "a", false) == Some(Parsed(Equal("a", "b"), ")"));
    assert ParseSimple("a=b)", false) == Some(Parsed(Equal("a", "b"), ")"));
  }

  /** The two strings read while parsing "Xa=b)". */
  lemma CounterexampleStrings()
    ensures ParseStr("a=b)") == Some(Parsed("a", "=b)"))
    ensures ParseStr("b)") == Some(Parsed("b", ")"))
  {
    ReadOneChar("a=b)");
    ReadOneChar("b)");
  }

  /** A one-character string before a special character reads as that character. */
  lemma ReadOneChar(t: string)
    requires |t| >= 2 && !IsSpecial(t[0]) && IsSpecial(t[1]) && t[1] != ESCAPE
    ensures ParseStr(t) == Some(Parsed([t[0]], t[1..]))
  {
    assert IsSpecial(ESCAPE);
    assert [] + [t[0]] == [t[0]];
    assert ParseStrLoop(t[1..], false, [t[0]]) == Some(Parsed([t[0]], t[1..]));
    assert ParseStrLoop(t, false, []) == ParseStrLoop(t[1..], false, [] + [t[0]]);
  }

  // Strings the unit tests expect to be accepted and printed back
  // unchanged: each is the canonical form of the filter it parses to.

  lemma TestEqualRoundTrip()
    ensures ParseFilter("(foo=xx)") == Some(Equal("foo", "xx"))
  {
    EscapePlain("foo"); EscapePlain("xx");
    assert Str(Equal("foo", "xx")) == "(foo=xx)";
    RoundTrip(Equal("foo", "xx"), true);
  }

  lemma TestPresentRoundTrip()
    ensures ParseFilter("(foo=*)") == Some(Present("foo"))
  {
    EscapePlain("foo");
    assert Str(Present("foo")) == "(foo=*)";
    RoundTrip(Present("foo"), true);
  }

  lemma TestOrderRoundTrip()
    ensures ParseFilter("(bar>-4)") == Some(GreaterThan("bar", -4))
  {
    OrderTestString();
    RoundTrip(GreaterThan("bar", -4), true);
  }

  lemma OrderTestString()
    ensures Str(GreaterThan("bar", -4)) == "(bar>-4)"
  {
    OrderTestBody();
    assert [BEGIN_EXPR] + "bar>-4" + [END_EXPR] == "(bar>-4)";
  }

  lemma OrderTestBody()
    ensures Body(GreaterThan("bar", -4)) == "bar>-4"
  {
    EscapePlain("bar"); EscapeDecimal(-4);
    assert DigitChar(4) == '4';
    assert IntToString(-4) == "-4";
    assert "bar" + [GREATER_THAN] + "-4" == "bar>-4";
  }

  lemma TestNotRoundTrip()
    ensures ParseFilter("(!(foo>9))") == Some(Not(GreaterThan("foo", 9)))
  {
    NotTestString();
    RoundTrip(Not(GreaterThan("foo", 9)), true);
  }

  lemma NotTestString()
    ensures Str(Not(GreaterThan("foo", 9))) == "(!(foo>9))"
  {
    EscapePlain("foo"); EscapeDecimal(9);
    assert DigitChar(9) == '9';
    assert IntToString(9) == "9";
    assert Body(GreaterThan("foo", 9)) == "foo" + [GREATER_THAN] + "9";
    assert Str(GreaterThan("foo", 9)) == "(foo>9)";
  }
}
