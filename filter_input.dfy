// The parsing procedures of src/sd/filter.c as they run: a cursor into the
// input string (struct input) that input_skip and input_expect advance,
// parse_str growing an sbuf character by character, parse_composite
// appending operands in a loop. Each procedure is proved to return what
// the corresponding function of FilterParse returns and to leave the
// cursor where that function's unread rest begins. These procedures use
// the corrected input_expect, which compares the character.
module FilterInput {
  import opened Wrappers
  import opened Decimal
  import opened Filter
  import FP = FilterParse
  import opened Sbuf

  /** struct input: the string and the offset of the next character to read. */
  class Input {
    const data: string
    var offset: nat

    predicate Valid()
      reads this
    {
      offset <= |data|
    }

    /** What is left to read. */
    function Rest(): string
      requires Valid()
      reads this
    {
      data[offset..]
    }

    constructor (s: string)
      ensures Valid() && data == s && offset == 0 && Rest() == s
    {
      data := s;
      offset := 0;
    }

    /** input_current. */
    method Current() returns (c: Option<char>)
      requires Valid()
      ensures c == FP.Current(Rest())
    {
      if offset == |data| {
        c := None;
      } else {
        c := Some(data[offset]);
      }
    }

    /** input_is_current: -1 at the end of the input, else whether the character is `expected`. */
    method IsCurrent(expected: char) returns (rc: int)
      requires Valid()
      ensures rc == -1 <==> |Rest()| == 0
      ensures rc == 1 <==> |Rest()| > 0 && Rest()[0] == expected
      ensures rc == 0 <==> |Rest()| > 0 && Rest()[0] != expected
    {
      var c := Current();
      if c.None? {
        rc := -1;
      } else if c.value == expected {
        rc := 1;
      } else {
        rc := 0;
      }
    }

    /** input_skip: advance past the current character, failing at the end. */
    method Skip() returns (rc: int)
      requires Valid()
      modifies this
      ensures Valid()
      ensures rc == 0 <==> |old(Rest())| > 0
      ensures rc == 0 ==> Rest() == old(Rest())[1..]
      ensures rc != 0 ==> rc == -1 && offset == old(offset)
    {
      if offset == |data| {
        rc := -1;
      } else {
        offset := offset + 1;
        rc := 0;
      }
    }

    /** input_expect as written: advances past any character. */
    method ExpectAsWritten(expected: char) returns (rc: int)
      requires Valid()
      modifies this
      ensures Valid()
      ensures rc == 0 <==> FP.Expect(old(Rest()), expected, false).Some?
      ensures rc == 0 ==> Rest() == FP.Expect(old(Rest()), expected, false).value
      ensures rc != 0 ==> rc == -1 && offset == old(offset)
    {
      var current := IsCurrent(expected);
      if current < 0 {
        return -1;
      }
      offset := offset + 1;
      rc := 0;
    }

    /** input_expect, checking that the current character is `expected`. */
    method Expect(expected: char) returns (rc: int)
      requires Valid()
      modifies this
      ensures Valid()
      ensures rc == 0 <==> FP.Expect(old(Rest()), expected, true).Some?
      ensures rc == 0 ==> Rest() == FP.Expect(old(Rest()), expected, true).value
      ensures rc != 0 ==> rc == -1 && offset == old(offset)
    {
      var current := IsCurrent(expected);
      if current != 1 {
        return -1;
      }
      offset := offset + 1;
      rc := 0;
    }

    /** input_left: the number of characters not yet read. */
    method Left() returns (n: nat)
      requires Valid()
      ensures n == |Rest()|
    {
      n := |data| - offset;
    }
  }

  /** A procedure's result and final cursor agree with a parsing function's result. */
  ghost predicate Agrees<T>(spec: Option<FP.Parsed<T>>, r: Option<T>, input: Input)
    reads input
    requires input.Valid()
  {
    (r.Some? <==> spec.Some?) && (r.Some? ==> r.value == spec.value.value && input.Rest() == spec.value.rest)
  }

  /** parse_str. */
  method ParseStr(input: Input) returns (r: Option<string>)
    requires input.Valid()
    modifies input
    ensures input.Valid() && Agrees(FP.ParseStr(old(input.Rest())), r, input)
  {
    ghost var spec := FP.ParseStr(input.Rest());
    var escaped := false;
    var result := new SBuf();
    while true
      invariant input.Valid() && result.Valid() && fresh(result.Repr)
      invariant FP.ParseStrLoop(input.Rest(), escaped, result.Contents()) == spec
      decreases |input.Rest()|
    {
      var c := input.Current();
      if c.None? {
        return None;
      }
      var special := IsSpecial(c.value);
      if escaped {
        if !special {
          return None;
        }
        var rc := input.Skip();
        result.AppendChar(c.value);
        escaped := false;
      } else {
        if c.value == ESCAPE {
          escaped := true;
        } else if special {
          var s := result.Morph();
          return Some(s);
        } else {
          result.AppendChar(c.value);
        }
        var rc := input.Skip();
      }
    }
  }

  /** parse_int. */
  method ParseInt(input: Input) returns (r: Option<int>)
    requires input.Valid()
    modifies input
    ensures input.Valid() && Agrees(FP.ParseInt(old(input.Rest())), r, input)
  {
    var value := ParseStr(input);
    if value.None? || |value.value| == 0 || FP.IsSpace(value.value[0]) {
      return None;
    }
    r := StrToInt64(value.value);
  }

  /** parse_substring_and_present, from just after the first "*". */
  method ParseSubstringAndPresent(input: Input, key: string, initial: string) returns (r: Option<Filter>)
    requires input.Valid()
    modifies input
    ensures input.Valid() && Agrees(FP.ParseSubstringAndPresent(old(input.Rest()), key, initial, []), r, input)
  {
    ghost var spec := FP.ParseSubstringAndPresent(input.Rest(), key, initial, []);
    var intermediates: seq<string> := [];
    while true
      invariant input.Valid()
      invariant FP.ParseSubstringAndPresent(input.Rest(), key, initial, intermediates) == spec
      decreases |input.Rest()|
    {
      var next := ParseStr(input);
      if next.None? {
        return None;
      }
      var isAny := input.IsCurrent(ANY);
      if isAny == 1 {
        if |next.value| == 0 {
          return None;
        }
        intermediates := intermediates + [next.value];
        var rc := input.Skip();
      } else {
        return Some(FP.SubstringOrPresent(key, initial, intermediates, next.value));
      }
    }
  }

  /** parse_equal. */
  method ParseEqual(input: Input, key: string) returns (r: Option<Filter>)
    requires input.Valid()
    modifies input
    ensures input.Valid() && Agrees(FP.ParseEqual(old(input.Rest()), key, true), r, input)
  {
    var rc := input.Expect(EQUAL);
    if rc < 0 {
      return None;
    }
    var value := ParseStr(input);
    if value.None? {
      return None;
    }
    var isAny := input.IsCurrent(ANY);
    if isAny == 1 {
      rc := input.Skip();
      r := ParseSubstringAndPresent(input, key, value.value);
    } else {
      r := Some(Equal(key, value.value));
    }
  }

  /** parse_greater_and_less_than. */
  method ParseOrder(input: Input, key: string, greater: bool) returns (r: Option<Filter>)
    requires input.Valid()
    modifies input
    ensures input.Valid() && Agrees(FP.ParseOrder(old(input.Rest()), key, greater, true), r, input)
  {
    var rc := input.Expect(if greater then GREATER_THAN else LESS_THAN);
    if rc < 0 {
      return None;
    }
    var value := ParseInt(input);
    if value.None? {
      return None;
    }
    r := Some(if greater then GreaterThan(key, value.value) else LessThan(key, value.value));
  }

  /** parse_simple. */
  method ParseSimple(input: Input) returns (r: Option<Filter>)
    requires input.Valid()
    modifies input
    ensures input.Valid() && Agrees(FP.ParseSimple(old(input.Rest()), true), r, input)
  {
    var key := ParseStr(input);
    if key.None? || |key.value| == 0 {
      return None;
    }
    var c := input.Current();
    if c.None? {
      return None;
    }
    if c.value == EQUAL {
      r := ParseEqual(input, key.value);
    } else if c.value == GREATER_THAN {
      r := ParseOrder(input, key.value, true);
    } else if c.value == LESS_THAN {
      r := ParseOrder(input, key.value, false);
    } else {
      r := None;
    }
  }

  /** parse. */
  method Parse(input: Input) returns (r: Option<Filter>)
    requires input.Valid()
    modifies input
    ensures input.Valid() && Agrees(FP.Parse(old(input.Rest()), true), r, input)
    decreases |input.data| - input.offset, 2
  {
    var c := input.Current();
    if c.None? {
      return None;
    }
    if c.value == AND {
      r := ParseComposite(input, true);
    } else if c.value == OR {
      r := ParseComposite(input, false);
    } else if c.value == NOT {
      r := ParseNot(input);
    } else {
      r := ParseSimple(input);
    }
  }

  /** parse_not. */
  method ParseNot(input: Input) returns (r: Option<Filter>)
    requires input.Valid()
    modifies input
    ensures input.Valid() && Agrees(FP.ParseNot(old(input.Rest()), true), r, input)
    decreases |input.data| - input.offset, 1
  {
    var rc := input.Expect(NOT);
    if rc < 0 {
      return None;
    }
    rc := input.Expect(BEGIN_EXPR);
    if rc < 0 {
      return None;
    }
    var operand := Parse(input);
    if operand.None? {
      return None;
    }
    rc := input.Expect(END_EXPR);
    if rc < 0 {
      return None;
    }
    r := Some(Not(operand.value));
  }

  /** parse_composite: the result of the first input_expect is ignored. */
  method ParseComposite(input: Input, isAnd: bool) returns (r: Option<Filter>)
    requires input.Valid()
    modifies input
    ensures input.Valid() && Agrees(FP.ParseComposite(old(input.Rest()), isAnd, true), r, input)
    decreases |input.data| - input.offset, 1
  {
    ghost var spec := FP.ParseComposite(input.Rest(), isAnd, true);
    ghost var entry := |input.data| - input.offset;
    var rc := input.Expect(if isAnd then AND else OR);
    var operands: seq<Filter> := [];
    while true
      invariant input.Valid() && |input.data| - input.offset <= entry
      invariant FP.Operands(input.Rest(), isAnd, operands, true) == spec
      decreases |input.Rest()|
    {
      var c := input.Current();
      if c.None? {
        return None;
      }
      if c.value == BEGIN_EXPR {
        rc := input.Skip();
        var operand := Parse(input);
        if operand.None? {
          return None;
        }
        operands := operands + [operand.value];
        rc := input.Expect(END_EXPR);
        if rc < 0 {
          return None;
        }
      } else if c.value == END_EXPR {
        if |operands| < 2 {
          return None;
        }
        return Some(if isAnd then And(operands) else Or(operands));
      } else {
        return None;
      }
    }
  }

  /** filter_parse, with input_expect checking the character. */
  method FilterParse(s: string) returns (r: Option<Filter>)
    ensures r == FP.ParseFilter(s)
  {
    var input := new Input(s);
    var rc := input.Expect(BEGIN_EXPR);
    if rc < 0 {
      return None;
    }
    r := Parse(input);
    if r.None? {
      return None;
    }
    rc := input.Expect(END_EXPR);
    if rc < 0 {
      return None;
    }
    var left := input.Left();
    if left > 0 {
      return None;
    }
  }

  /** filter_is_valid. */
  method FilterIsValid(s: string) returns (valid: bool)
    ensures valid <==> FP.IsValid(s)
  {
    var f := FilterParse(s);
    valid := f.Some?;
  }
}
