// The printing side of src/sd/filter.c: the escaper and the printing
// procedures that append to an sbuf. Each is proved to compute what the
// functions of Filter specify.
module FilterImpl {
  import opened Wrappers
  import opened Decimal
  import opened Filter
  import opened FilterParse
  import opened Sbuf

  // ---------------------------------------------------------------- printing

  lemma {:induction false} EscapeConcat(a: string, b: string)
    ensures Escape(a + b) == Escape(a) + Escape(b)
  {
    if |a| > 0 {
      assert (a + b)[1..] == a[1..] + b;
      EscapeConcat(a[1..], b);
    } else {
      assert a + b == b;
    }
  }

  lemma EscapeChar(c: char)
    ensures Escape([c]) == if IsSpecial(c) then [ESCAPE, c] else [c]
  {
    assert [c][1..] == [];
  }

  lemma EscapeStep(s: string, i: nat)
    requires i < |s|
    ensures Escape(s[..i]) + Escape([s[i]]) == Escape(s[..i + 1])
  {
    assert s[..i + 1] == s[..i] + [s[i]];
    EscapeConcat(s[..i], [s[i]]);
  }

  /** filter_escape: the loop copies each character, after a backslash when it is special. */
  method FilterEscape(s: string) returns (r: string)
    ensures r == Escape(s)
  {
    var output := new SBuf();
    var i := 0;
    while i < |s|
      invariant 0 <= i <= |s|
      invariant output.Valid() && fresh(output.Repr) && output.Contents() == Escape(s[..i])
    {
      AppendEscapedChar(output, s[i]);
      EscapeStep(s, i);
      i := i + 1;
    }
    assert s[..i] == s;
    r := output.Morph();
  }

  /** One step of the filter_escape loop: a backslash first when the character is special. */
  method AppendEscapedChar(output: SBuf, c: char)
    requires output.Valid()
    modifies output.Repr
    ensures output.Valid() && fresh(output.Repr - old(output.Repr))
    ensures output.Contents() == old(output.Contents()) + Escape([c])
  {
    if IsSpecial(c) {
      output.AppendChar(ESCAPE);
    }
    output.AppendChar(c);
    EscapeChar(c);
  }

  /** append_escaped. */
  method AppendEscaped(output: SBuf, s: string)
    requires output.Valid()
    modifies output.Repr
    ensures output.Valid() && fresh(output.Repr - old(output.Repr))
    ensures output.Contents() == old(output.Contents()) + Escape(s)
  {
    var escaped := FilterEscape(s);
    output.Append(escaped);
  }

  lemma {:induction false} IntermediatesSnoc(ms: seq<string>, m: string)
    ensures IntermediatesStr(ms + [m]) == IntermediatesStr(ms) + Escape(m) + [ANY]
  {
    if |ms| > 0 {
      assert (ms + [m])[1..] == ms[1..] + [m];
      IntermediatesSnoc(ms[1..], m);
    } else {
      assert ms + [m] == [m];
    }
  }

  lemma {:induction false} OperandsSnoc(gs: seq<Filter>, g: Filter)
    ensures OperandsStr(gs + [g]) == OperandsStr(gs) + Str(g)
  {
    if |gs| > 0 {
      assert (gs + [g])[1..] == gs[1..] + [g];
      OperandsSnoc(gs[1..], g);
    } else {
      assert gs + [g] == [g];
    }
  }

  /** filter_str: the node's str operation into a fresh sbuf, morphed into a string. */
  method FilterStr(f: Filter) returns (s: string)
    ensures s == Str(f)
    decreases f, 3
  {
    var output := new SBuf();
    StrInto(f, output);
    s := output.Morph();
  }

  /** The node's str operation: append its canonical form to `output`. */
  method StrInto(f: Filter, output: SBuf)
    requires output.Valid()
    modifies output.Repr
    ensures output.Valid() && fresh(output.Repr - old(output.Repr))
    ensures output.Contents() == old(output.Contents()) + Str(f)
    decreases f, 2
  {
    match f
    case Equal(_, _) => ComparisonStr(f, output);
    case GreaterThan(_, _) => ComparisonStr(f, output);
    case LessThan(_, _) => ComparisonStr(f, output);
    case Present(k) => PresentStr(k, output);
    case Substring(_, _, _, _) => SubstringStr(f, output);
    case Not(g) => NotStr(g, output);
    case And(gs) => CompositeStr(f, output);
    case Or(gs) => CompositeStr(f, output);
  }

  lemma ComparisonText(f: Filter)
    requires f.Equal? || f.GreaterThan? || f.LessThan?
    ensures Str(f) == [BEGIN_EXPR] + Escape(f.key)
      + [if f.Equal? then EQUAL else if f.GreaterThan? then GREATER_THAN else LESS_THAN]
      + Escape(if f.Equal? then f.value else IntToString(f.bound)) + [END_EXPR]
  {
  }

  /**
   * comparison_str: the escaped key, the operator and the escaped value
   * text (for ">" and "<" the decimal the node was created with).
   */
  method ComparisonStr(f: Filter, output: SBuf)
    requires (f.Equal? || f.GreaterThan? || f.LessThan?) && output.Valid()
    modifies output.Repr
    ensures output.Valid() && fresh(output.Repr - old(output.Repr))
    ensures output.Contents() == old(output.Contents()) + Str(f)
  {
    var op := if f.Equal? then EQUAL else if f.GreaterThan? then GREATER_THAN else LESS_THAN;
    var value := if f.Equal? then f.value else IntToString(f.bound);
    ComparisonText(f);
    AppendComparison(f.key, op, value, output);
  }

  method AppendComparison(key: string, op: char, value: string, output: SBuf)
    requires output.Valid()
    modifies output.Repr
    ensures output.Valid() && fresh(output.Repr - old(output.Repr))
    ensures output.Contents() == old(output.Contents()) + ([BEGIN_EXPR] + Escape(key) + [op] + Escape(value) + [END_EXPR])
  {
    ghost var before := output.Contents();
    output.AppendChar(BEGIN_EXPR);
    AppendEscaped(output, key);
    output.AppendChar(op);
    AppendEscaped(output, value);
    output.AppendChar(END_EXPR);
    Regroup5(before, [BEGIN_EXPR], Escape(key), [op], Escape(value), [END_EXPR]);
  }

  /** present_str. */
  method PresentStr(k: string, output: SBuf)
    requires output.Valid()
    modifies output.Repr
    ensures output.Valid() && fresh(output.Repr - old(output.Repr))
    ensures output.Contents() == old(output.Contents()) + Str(Present(k))
  {
    ghost var before := output.Contents();
    output.AppendChar(BEGIN_EXPR);
    AppendEscaped(output, k);
    output.AppendChar(EQUAL);
    output.AppendChar(ANY);
    output.AppendChar(END_EXPR);
    Regroup5(before, [BEGIN_EXPR], Escape(k), [EQUAL], [ANY], [END_EXPR]);
    assert [EQUAL] + [ANY] == [EQUAL, ANY];
  }

  lemma Regroup5(before: string, a: string, b: string, c: string, d: string, e: string)
    ensures before + a + b + c + d + e == before + (a + (b + (c + d)) + e)
    ensures before + a + b + c + d + e == before + (a + b + c + d + e)
  {
  }

  /** substring_str: an absent initial or final part prints as nothing. */
  method SubstringStr(f: Filter, output: SBuf)
    requires f.Substring? && output.Valid()
    modifies output.Repr
    ensures output.Valid() && fresh(output.Repr - old(output.Repr))
    ensures output.Contents() == old(output.Contents()) + Str(f)
  {
    ghost var before := output.Contents();
    SubstringHead(f.key, f.initial, output);
    SubstringTail(f.intermediates, f.final, output);
    SubstringText(f);
    Assoc(before, [BEGIN_EXPR] + Escape(f.key) + [EQUAL] + Escape(f.initial) + [ANY],
          IntermediatesStr(f.intermediates) + Escape(f.final) + [END_EXPR]);
  }

  lemma Assoc(a: string, b: string, c: string)
    ensures a + b + c == a + (b + c)
  {
  }

  lemma SubstringText(f: Filter)
    requires f.Substring?
    ensures Str(f) == ([BEGIN_EXPR] + Escape(f.key) + [EQUAL] + Escape(f.initial) + [ANY])
                      + (IntermediatesStr(f.intermediates) + Escape(f.final) + [END_EXPR])
  {
    Regroup([BEGIN_EXPR], Escape(f.key), [EQUAL], Escape(f.initial), [ANY], IntermediatesStr(f.intermediates), Escape(f.final), [END_EXPR]);
  }

  lemma Regroup(p: string, k: string, q: string, i: string, r: string, m: string, e: string, z: string)
    ensures p + (k + q + i + r + m + e) + z == (p + k + q + i + r) + (m + e + z)
  {
  }

  /** The part of substring_str up to the first "*". */
  method SubstringHead(key: string, initial: string, output: SBuf)
    requires output.Valid()
    modifies output.Repr
    ensures output.Valid() && fresh(output.Repr - old(output.Repr))
    ensures output.Contents() == old(output.Contents()) + ([BEGIN_EXPR] + Escape(key) + [EQUAL] + Escape(initial) + [ANY])
  {
    ghost var before := output.Contents();
    output.AppendChar(BEGIN_EXPR);
    AppendEscaped(output, key);
    output.AppendChar(EQUAL);
    ghost var mid := output.Contents();
    if initial != [] {
      AppendEscaped(output, initial);
    } else {
      assert Escape(initial) == [];
      assert output.Contents() == mid + Escape(initial);
    }
    output.AppendChar(ANY);
    Regroup5(before, [BEGIN_EXPR], Escape(key), [EQUAL], Escape(initial), [ANY]);
  }

  /** The part of substring_str after the first "*". */
  method SubstringTail(ms: seq<string>, final: string, output: SBuf)
    requires output.Valid()
    modifies output.Repr
    ensures output.Valid() && fresh(output.Repr - old(output.Repr))
    ensures output.Contents() == old(output.Contents()) + (IntermediatesStr(ms) + Escape(final) + [END_EXPR])
  {
    ghost var before := output.Contents();
    AppendIntermediates(ms, output);
    ghost var mid := output.Contents();
    if final != [] {
      AppendEscaped(output, final);
    }
    assert output.Contents() == mid + Escape(final);
    output.AppendChar(END_EXPR);
  }

  lemma IntermediatesStep(head: string, ms: seq<string>, j: nat)
    requires j < |ms|
    ensures head + IntermediatesStr(ms[..j]) + Escape(ms[j]) + [ANY] == head + IntermediatesStr(ms[..j + 1])
  {
    assert ms[..j + 1] == ms[..j] + [ms[j]];
    IntermediatesSnoc(ms[..j], ms[j]);
  }

  /** One step of the intermediate loop: the part escaped, then "*". */
  method AppendIntermediate(output: SBuf, m: string)
    requires output.Valid()
    modifies output.Repr
    ensures output.Valid() && fresh(output.Repr - old(output.Repr))
    ensures output.Contents() == old(output.Contents()) + Escape(m) + [ANY]
  {
    AppendEscaped(output, m);
    output.AppendChar(ANY);
  }

  /** The intermediate loop of substring_str: each part escaped and followed by "*". */
  method AppendIntermediates(ms: seq<string>, output: SBuf)
    requires output.Valid()
    modifies output.Repr
    ensures output.Valid() && fresh(output.Repr - old(output.Repr))
    ensures output.Contents() == old(output.Contents()) + IntermediatesStr(ms)
  {
    ghost var head := output.Contents();
    var j := 0;
    while j < |ms|
      invariant 0 <= j <= |ms|
      invariant output.Valid() && fresh(output.Repr - old(output.Repr))
      invariant output.Contents() == head + IntermediatesStr(ms[..j])
    {
      AppendIntermediate(output, ms[j]);
      IntermediatesStep(head, ms, j);
      j := j + 1;
    }
    assert ms[..j] == ms;
  }

  /** not_str: "(!" then the operand's own string, then ")". */
  method NotStr(g: Filter, output: SBuf)
    requires output.Valid()
    modifies output.Repr
    ensures output.Valid() && fresh(output.Repr - old(output.Repr))
    ensures output.Contents() == old(output.Contents()) + Str(Not(g))
    decreases Not(g), 1
  {
    ghost var before := output.Contents();
    var operand := FilterStr(g);
    output.AppendChar(BEGIN_EXPR);
    output.AppendChar(NOT);
    output.Append(operand);
    output.AppendChar(END_EXPR);
    Wrapped(before, BEGIN_EXPR, [NOT], operand, END_EXPR);
    NotText(g);
  }

  lemma NotText(g: Filter)
    ensures Str(Not(g)) == [BEGIN_EXPR] + ([NOT] + Str(g)) + [END_EXPR]
  {
  }

  /** composite_str. */
  method CompositeStr(f: Filter, output: SBuf)
    requires (f.And? || f.Or?) && output.Valid()
    modifies output.Repr
    ensures output.Valid() && fresh(output.Repr - old(output.Repr))
    ensures output.Contents() == old(output.Contents()) + Str(f)
    decreases f, 1
  {
    ghost var before := output.Contents();
    var op := if f.And? then AND else OR;
    output.AppendChar(BEGIN_EXPR);
    output.AppendChar(op);
    AppendOperands(f.operands, output);
    output.AppendChar(END_EXPR);
    Wrapped(before, BEGIN_EXPR, [op], OperandsStr(f.operands), END_EXPR);
  }

  lemma Wrapped(before: string, a: char, b: string, middle: string, c: char)
    ensures before + [a] + b + middle + [c] == before + ([a] + (b + middle) + [c])
  {
  }

  lemma OperandsStep(head: string, gs: seq<Filter>, j: nat)
    requires j < |gs|
    ensures head + OperandsStr(gs[..j]) + Str(gs[j]) == head + OperandsStr(gs[..j + 1])
  {
    assert gs[..j + 1] == gs[..j] + [gs[j]];
    OperandsSnoc(gs[..j], gs[j]);
  }

  /** The operand loop of composite_str. */
  method AppendOperands(gs: seq<Filter>, output: SBuf)
    requires output.Valid()
    modifies output.Repr
    ensures output.Valid() && fresh(output.Repr - old(output.Repr))
    ensures output.Contents() == old(output.Contents()) + OperandsStr(gs)
    decreases gs, 0
  {
    ghost var head := output.Contents();
    var j := 0;
    while j < |gs|
      invariant 0 <= j <= |gs|
      invariant output.Valid() && fresh(output.Repr - old(output.Repr))
      invariant output.Contents() == head + OperandsStr(gs[..j])
    {
      var operand := FilterStr(gs[j]);
      output.Append(operand);
      OperandsStep(head, gs, j);
      j := j + 1;
    }
    assert gs[..j] == gs;
  }

  /** filter_equal. */
  method FilterEqualM(a: Filter, b: Filter) returns (equal: bool)
    ensures equal == FilterEqual(a, b)
  {
    var aS := FilterStr(a);
    var bS := FilterStr(b);
    equal := aS == bS;
  }
}
