// A protocol transaction (src/proto/proto_ta.c): one request from a client
// and the responses the server sends to it. A request is a JSON object; it
// is validated against the table of commands, which says for each command
// which fields it must carry, which it may carry, and whether it is answered
// once (single-response) or accepted, notified and then completed
// (multi-response).
module ProtoTa {
  import opened Wrappers
  import opened Properties
  import opened PValues
  import Subs

  /** The protocol version the server speaks. */
  const PROTO_VERSION: int := 2
  /** ta-cmd, ta-id and msg-type. */
  const NUM_MANDATORY_FIELDS: nat := 3

  /**
   * A decoded JSON value. An object keeps its members in document order;
   * a number that is not an integer is kept without its value.
   */
  datatype Json =
    | JNull
    | JBool(b: bool)
    | JInt(n: int)
    | JReal
    | JStr(s: string)
    | JArr(elems: seq<Json>)
    | JObj(members: seq<(string, Json)>)

  /** json_object_get: the value of the first member named `name`. */
  function Get(j: Json, name: string): (r: Option<Json>)
    ensures r.Some? <==> j.JObj? && exists i :: 0 <= i < |j.members| && j.members[i].0 == name
  {
    if j.JObj? then Member(j.members, name) else None
  }

  function Member(ms: seq<(string, Json)>, name: string): (r: Option<Json>)
    ensures r.Some? <==> exists i :: 0 <= i < |ms| && ms[i].0 == name
  {
    if |ms| == 0 then None
    else if ms[0].0 == name then Some(ms[0].1)
    else
      var r := Member(ms[1..], name);
      assert forall i :: 1 <= i < |ms| ==> ms[i] == ms[1..][i - 1];
      r
  }

  /** json_object_size: the number of names an object carries. */
  function ObjectSize(j: Json): nat {
    if j.JObj? then |set i | 0 <= i < |j.members| :: j.members[i].0| else 0
  }

  // ---------------------------------------------------------------------
  // The command table

  datatype FieldType = StrType | Uint63Type | NumberType | PropsType | MatchTypeType

  datatype Field = Field(name: string, ftype: FieldType)

  datatype IaType = SingleResponse | MultiResponse

  datatype TaType = TaType(
    cmd: string, iaType: IaType,
    reqFields: seq<Field>, optReqFields: seq<Field>,
    notifyFields: seq<Field>, optNotifyFields: seq<Field>,
    completeFields: seq<Field>, optFailFields: seq<Field>)

  const FailReason: seq<Field> := [Field("fail-reason", StrType)]

  const HelloTa: TaType := TaType(
    "hello", SingleResponse,
    [Field("client-id", Uint63Type), Field("protocol-minimum-version", Uint63Type),
     Field("protocol-maximum-version", Uint63Type)],
    [], [], [], [Field("protocol-version", Uint63Type)], FailReason)

  const PublishTa: TaType := TaType(
    "publish", SingleResponse,
    [Field("service-id", Uint63Type), Field("generation", Uint63Type),
     Field("service-props", PropsType), Field("ttl", Uint63Type)],
    [], [], [], [], FailReason)

  const UnpublishTa: TaType := TaType(
    "unpublish", SingleResponse, [Field("service-id", Uint63Type)], [], [], [], [], FailReason)

  const SubscribeTa: TaType := TaType(
    "subscribe", MultiResponse,
    [Field("subscription-id", Uint63Type)],
    [Field("filter", StrType)],
    [Field("match-type", MatchTypeType), Field("service-id", Uint63Type)],
    [Field("generation", Uint63Type), Field("service-props", PropsType), Field("ttl", Uint63Type),
     Field("client-id", Uint63Type), Field("orphan-since", NumberType)],
    [], FailReason)

  const UnsubscribeTa: TaType := TaType(
    "unsubscribe", SingleResponse, [Field("subscription-id", Uint63Type)], [], [], [], [], FailReason)

  const PingTa: TaType := TaType("ping", SingleResponse, [], [], [], [], [], FailReason)

  const ServicesTa: TaType := TaType(
    "services", MultiResponse,
    [], [Field("filter", StrType)],
    [Field("service-id", Uint63Type), Field("generation", Uint63Type), Field("service-props", PropsType),
     Field("ttl", Uint63Type), Field("client-id", Uint63Type)],
    [Field("orphan-since", NumberType)],
    [], FailReason)

  const SubscriptionsTa: TaType := TaType(
    "subscriptions", MultiResponse,
    [], [], [Field("subscription-id", Uint63Type), Field("client-id", Uint63Type)],
    [Field("filter", StrType)], [], [])

  const ClientsTa: TaType := TaType(
    "clients", MultiResponse,
    [], [], [Field("client-id", Uint63Type), Field("client-address", StrType), Field("time", Uint63Type)],
    [], [], FailReason)

  /** proto_ta_types, in table order. */
  const Types: seq<TaType> :=
    [HelloTa, PublishTa, UnpublishTa, SubscribeTa, UnsubscribeTa, PingTa, ServicesTa, SubscriptionsTa, ClientsTa]

  /** The first entry of `types` for the command `cmd`. */
  function TypeIn(types: seq<TaType>, cmd: string): (r: Option<TaType>)
    ensures r.Some? <==> exists i :: 0 <= i < |types| && types[i].cmd == cmd
    ensures r.Some? ==> r.value in types && r.value.cmd == cmd
  {
    if |types| == 0 then None
    else if types[0].cmd == cmd then Some(types[0])
    else
      var r := TypeIn(types[1..], cmd);
      assert forall i :: 1 <= i < |types| ==> types[i] == types[1..][i - 1];
      r
  }

  /** The command table entry for `cmd`, if the command is known. */
  function TypeNamed(cmd: string): Option<TaType> {
    TypeIn(Types, cmd)
  }

  /** No two commands share a name, so every command finds its own entry. */
  lemma TypeNamedFindsEach(i: int)
    requires 0 <= i < |Types|
    ensures TypeNamed(Types[i].cmd) == Some(Types[i])
  {
    CmdsDistinct();
    FirstFound(Types, Types[i].cmd, i);
  }

  /** The command names of the table, in order, are pairwise different. */
  lemma CmdsDistinct()
    ensures forall j, k :: 0 <= j < k < |Types| ==> Types[j].cmd != Types[k].cmd
  {
    var cmds := seq(|Types|, k requires 0 <= k < |Types| => Types[k].cmd);
    assert cmds == ["hello", "publish", "unpublish", "subscribe", "unsubscribe", "ping", "services",
                    "subscriptions", "clients"];
    forall j, k | 0 <= j < k < |Types|
      ensures Types[j].cmd != Types[k].cmd
    {
      assert cmds[j] == Types[j].cmd && cmds[k] == Types[k].cmd;
      assert |cmds[j]| != |cmds[k]| || cmds[j][0] != cmds[k][0];
    }
  }

  /** lookup_type: a search of the command table. */
  method LookupType(cmd: string) returns (r: Option<TaType>)
    ensures r == TypeNamed(cmd)
    ensures r.Some? <==> exists i :: 0 <= i < |Types| && Types[i].cmd == cmd
  {
    var i := 0;
    while i < |Types|
      invariant 0 <= i <= |Types|
      invariant forall k :: 0 <= k < i ==> Types[k].cmd != cmd
    {
      if Types[i].cmd == cmd {
        FirstFound(Types, cmd, i);
        return Some(Types[i]);
      }
      i := i + 1;
    }
    return None;
  }

  /** The first entry with a name is the one TypeIn finds. */
  lemma {:induction false} FirstFound(types: seq<TaType>, cmd: string, i: int)
    requires 0 <= i < |types| && types[i].cmd == cmd
    requires forall k :: 0 <= k < i ==> types[k].cmd != cmd
    ensures TypeIn(types, cmd) == Some(types[i])
    decreases i
  {
    if i > 0 {
      FirstFound(types[1..], cmd, i - 1);
    }
  }

  // ---------------------------------------------------------------------
  // Match types

  /** proto_match_type_to_enum: the three protocol names; any other string is rejected. */
  function MatchTypeToEnum(s: string): (r: Option<Subs.MatchType>)
    ensures r.Some? <==> s == "appeared" || s == "modified" || s == "disappeared"
    ensures r.Some? ==> EnumToMatchType(r.value) == s
  {
    if s == "appeared" then Some(Subs.Appeared)
    else if s == "modified" then Some(Subs.Modified)
    else if s == "disappeared" then Some(Subs.Disappeared)
    else None
  }

  /** enum_to_proto_match_type. */
  function EnumToMatchType(m: Subs.MatchType): string {
    match m
    case Appeared => "appeared"
    case Modified => "modified"
    case Disappeared => "disappeared"
  }

  /** Every match type survives conversion to its protocol name and back, and the names differ. */
  lemma MatchTypeRoundTrip(m: Subs.MatchType, m': Subs.MatchType)
    ensures MatchTypeToEnum(EnumToMatchType(m)) == Some(m)
    ensures EnumToMatchType(m) == EnumToMatchType(m') ==> m == m'
  {
    assert EnumToMatchType(m) != EnumToMatchType(m') <== m != m' by {
      var a := EnumToMatchType(m);
      var b := EnumToMatchType(m');
      if m != m' {
        assert a[0] != b[0] || |a| != |b|;
      }
    }
  }

  // ---------------------------------------------------------------------
  // Field values

  /** A validated field value; a non-integer number keeps no value. */
  datatype Value =
    | StrValue(s: string)
    | Uint63Value(n: int)
    | NumberValue
    | PropsValue(ps: seq<Pair>)
    | MatchTypeValue(m: Subs.MatchType)

  /** A value of the field's type; uint63 values are non-negative. */
  predicate OfType(v: Value, t: FieldType) {
    match t
    case StrType => v.StrValue?
    case Uint63Type => v.Uint63Value? && v.n >= 0
    case NumberType => v.NumberValue?
    case PropsType => v.PropsValue?
    case MatchTypeType => v.MatchTypeValue?
  }

  /** A property value in a JSON array: an integer or a string. */
  predicate IsPropValue(j: Json) {
    j.JInt? || j.JStr?
  }

  /** The pairs one member of a props object adds: one per array element, in order. */
  function ArrayPairs(name: string, elems: seq<Json>): (r: Option<seq<Pair>>)
    ensures r.Some? <==> forall k :: 0 <= k < |elems| ==> IsPropValue(elems[k])
    ensures r.Some? ==> |r.value| == |elems| && forall k :: 0 <= k < |elems| ==> r.value[k].name == name
  {
    if |elems| == 0 then Some([])
    else if !IsPropValue(elems[0]) then None
    else
      var v := if elems[0].JInt? then Int64(elems[0].n) else Str(elems[0].s);
      match ArrayPairs(name, elems[1..])
      case None => None
      case Some(rest) => Some([Pair(name, v)] + rest)
  }

  /**
   * json_to_props: every member must be an array of integers and strings;
   * each element becomes a pair under the member's name, member by member.
   */
  function JsonToProps(ms: seq<(string, Json)>): (r: Option<seq<Pair>>)
    ensures r.Some? <==> forall i :: 0 <= i < |ms| ==>
              ms[i].1.JArr? && forall k :: 0 <= k < |ms[i].1.elems| ==> IsPropValue(ms[i].1.elems[k])
    ensures r.Some? ==> forall p :: p in r.value ==> exists i :: 0 <= i < |ms| && ms[i].0 == p.name
  {
    if |ms| == 0 then Some([])
    else
      assert forall i :: 1 <= i < |ms| ==> ms[i] == ms[1..][i - 1];
      if !ms[0].1.JArr? then None
      else match ArrayPairs(ms[0].0, ms[0].1.elems)
        case None => None
        case Some(first) =>
          match JsonToProps(ms[1..])
          case None => None
          case Some(rest) =>
            assert forall p :: p in first ==> p.name == ms[0].0 by {
              forall p | p in first ensures p.name == ms[0].0 {
                var k :| 0 <= k < |first| && first[k] == p;
              }
            }
            Some(first + rest)
  }

  /**
   * One field of get_fields: None when the request is rejected, Some(None)
   * for an optional field that is absent, Some(Some(v)) for a valid value.
   */
  function GetField(msg: Json, f: Field, opt: bool): (r: Option<Option<Value>>)
    ensures Get(msg, f.name).None? ==> r == (if opt then Some(None) else None)
    ensures r.Some? && r.value.Some? ==> Get(msg, f.name).Some? && OfType(r.value.value, f.ftype)
    ensures f.ftype == Uint63Type && Get(msg, f.name).Some? ==>
              (r.Some? <==> Get(msg, f.name).value.JInt? && Get(msg, f.name).value.n >= 0)
  {
    match Get(msg, f.name)
    case None => if opt then Some(None) else None
    case Some(j) =>
      match f.ftype
      case Uint63Type => if j.JInt? && j.n >= 0 then Some(Some(Uint63Value(j.n))) else None
      case NumberType => if j.JInt? || j.JReal? then Some(Some(NumberValue)) else None
      case StrType => if j.JStr? then Some(Some(StrValue(j.s))) else None
      case PropsType =>
        if !j.JObj? then None
        else (match JsonToProps(j.members)
              case None => None
              case Some(ps) => Some(Some(PropsValue(ps))))
      case MatchTypeType =>
        if !j.JStr? then None
        else (match MatchTypeToEnum(j.s)
              case None => None
              case Some(m) => Some(Some(MatchTypeValue(m))))
  }

  /** The number of fields present. */
  function CountPresent(vs: seq<Option<Value>>): (n: nat)
    ensures n <= |vs|
  {
    if |vs| == 0 then 0 else CountPresent(vs[..|vs| - 1]) + if vs[|vs| - 1].Some? then 1 else 0
  }

  /** Values that fit their fields: each absent only if optional, of its field's type when present. */
  predicate Typed(fields: seq<Field>, vs: seq<Option<Value>>, opt: bool) {
    |vs| == |fields|
    && forall i :: 0 <= i < |vs| ==> (vs[i].Some? || opt) && (vs[i].Some? ==> OfType(vs[i].value, fields[i].ftype))
  }

  datatype Got = Got(values: seq<Option<Value>>, count: nat)

  /**
   * The outcome of a run over per-field results: the values in order and
   * how many are present, or None at the first rejected field.
   */
  function Collect(rs: seq<Option<Option<Value>>>): (r: Option<Got>)
    ensures r.Some? ==> |r.value.values| == |rs| && r.value.count == CountPresent(r.value.values)
    decreases |rs|
  {
    if |rs| == 0 then Some(Got([], 0))
    else match Collect(rs[..|rs| - 1])
      case None => None
      case Some(got) =>
        match rs[|rs| - 1]
        case None => None
        case Some(v) =>
          var vs := got.values + [v];
          assert vs[..|vs| - 1] == got.values;
          Some(Got(vs, got.count + if v.Some? then 1 else 0))
  }

  /** A run succeeds exactly when every field does, and yields each field's value. */
  lemma {:induction false} CollectEach(rs: seq<Option<Option<Value>>>)
    ensures Collect(rs).Some? <==> forall i :: 0 <= i < |rs| ==> rs[i].Some?
    ensures Collect(rs).Some? ==> forall i :: 0 <= i < |rs| ==> Collect(rs).value.values[i] == rs[i].value
    decreases |rs|
  {
    if |rs| > 0 {
      var before := rs[..|rs| - 1];
      CollectEach(before);
      assert forall i :: 0 <= i < |before| ==> before[i] == rs[i];
      if Collect(rs).Some? {
        assert Collect(rs).value.values == Collect(before).value.values + [rs[|rs| - 1].value];
      }
    }
  }

  /** The result of each field, in order. */
  function FieldResults(msg: Json, fields: seq<Field>, opt: bool): (rs: seq<Option<Option<Value>>>)
    ensures |rs| == |fields| && forall i :: 0 <= i < |fields| ==> rs[i] == GetField(msg, fields[i], opt)
  {
    seq(|fields|, i requires 0 <= i < |fields| => GetField(msg, fields[i], opt))
  }

  /**
   * get_fields: the values of `fields` in order and how many are present,
   * or None when any field is rejected.
   */
  function GetFields(msg: Json, fields: seq<Field>, opt: bool): Option<Got> {
    Collect(FieldResults(msg, fields, opt))
  }

  /**
   * get_fields accepts exactly when every field is accepted; the values
   * are those of the fields one by one, typed, and all present when the
   * fields are required.
   */
  lemma GetFieldsLaw(msg: Json, fields: seq<Field>, opt: bool)
    ensures GetFields(msg, fields, opt).Some? <==> forall i :: 0 <= i < |fields| ==> GetField(msg, fields[i], opt).Some?
    ensures GetFields(msg, fields, opt).Some? ==>
              var r := GetFields(msg, fields, opt).value;
              (forall i :: 0 <= i < |fields| ==> r.values[i] == GetField(msg, fields[i], opt).value)
              && Typed(fields, r.values, opt) && r.count == CountPresent(r.values) && (!opt ==> r.count == |fields|)
  {
    var rs := FieldResults(msg, fields, opt);
    CollectEach(rs);
    if GetFields(msg, fields, opt).Some? {
      var r := GetFields(msg, fields, opt).value;
      forall i | 0 <= i < |fields|
        ensures (r.values[i].Some? || opt) && (r.values[i].Some? ==> OfType(r.values[i].value, fields[i].ftype))
      {
        assert r.values[i] == GetField(msg, fields[i], opt).value;
      }
      if !opt {
        CountAllPresent(r.values);
      }
    }
  }

  /** Values that are all present are all counted. */
  lemma {:induction false} CountAllPresent(vs: seq<Option<Value>>)
    requires forall i :: 0 <= i < |vs| ==> vs[i].Some?
    ensures CountPresent(vs) == |vs|
    decreases |vs|
  {
    if |vs| > 0 {
      CountAllPresent(vs[..|vs| - 1]);
    }
  }

  /** One rejected field rejects the whole run. */
  lemma FieldRejected(msg: Json, fields: seq<Field>, opt: bool, i: nat)
    requires i < |fields| && GetField(msg, fields[i], opt).None?
    ensures GetFields(msg, fields, opt).None?
  {
    CollectEach(FieldResults(msg, fields, opt));
  }

  /**
   * get_fields as the source runs it: the fields in order, counting those
   * present, stopping at the first rejected one with every value released.
   */
  method FetchFields(msg: Json, fields: seq<Field>, opt: bool) returns (values: seq<Option<Value>>, n: int)
    ensures n < 0 <==> GetFields(msg, fields, opt).None?
    ensures n >= 0 ==> GetFields(msg, fields, opt) == Some(Got(values, n))
    ensures n < 0 ==> |values| == |fields| && forall i :: 0 <= i < |values| ==> values[i].None?
  {
    ghost var rs := FieldResults(msg, fields, opt);
    values := [];
    n := 0;
    var i := 0;
    while i < |fields|
      invariant 0 <= i <= |fields| && |values| == i
      invariant forall j :: 0 <= j < i ==> rs[j] == Some(values[j])
      invariant n == CountPresent(values)
    {
      var v := GetField(msg, fields[i], opt);
      if v.None? {
        FieldRejected(msg, fields, opt, i);
        values := seq(|fields|, _ => None);
        return values, -1;
      }
      CountSnoc(values, v.value);
      values := values + [v.value];
      n := n + if v.value.Some? then 1 else 0;
      i := i + 1;
    }
    AllFieldsAccepted(rs, values);
  }

  /** Appending one value counts it when it is present. */
  lemma CountSnoc(vs: seq<Option<Value>>, x: Option<Value>)
    ensures CountPresent(vs + [x]) == CountPresent(vs) + if x.Some? then 1 else 0
  {
    assert (vs + [x])[..|vs|] == vs;
  }

  /** A run whose every result is accepted collects exactly those values. */
  lemma AllFieldsAccepted(rs: seq<Option<Option<Value>>>, values: seq<Option<Value>>)
    requires |values| == |rs| && forall j :: 0 <= j < |rs| ==> rs[j] == Some(values[j])
    ensures Collect(rs) == Some(Got(values, CountPresent(values)))
  {
    CollectEach(rs);
    assert Collect(rs).value.values == values;
  }

  // ---------------------------------------------------------------------
  // Requests

  datatype MsgType = ReqMsg | AcceptMsg | NotifyMsg | CompleteMsg | FailMsg | UndefinedMsg

  /** get_uint63 of ta-id: an integer that is not negative. */
  function TaIdOf(msg: Json): (r: Option<int>)
    ensures r.Some? <==> Get(msg, "ta-id").Some? && Get(msg, "ta-id").value.JInt? && Get(msg, "ta-id").value.n >= 0
    ensures r.Some? ==> r.value >= 0
  {
    match Get(msg, "ta-id")
    case Some(JInt(n)) => if n >= 0 then Some(n) else None
    case _ => None
  }

  /** The ta-cmd field, which must be a string. */
  function CmdOf(msg: Json): Option<string> {
    match Get(msg, "ta-cmd")
    case Some(JStr(s)) => Some(s)
    case _ => None
  }

  /** get_msg_type: the message type a msg-type string names; undefined otherwise. */
  function MsgTypeOf(msg: Json): (r: MsgType)
    ensures r == ReqMsg <==> Get(msg, "msg-type") == Some(JStr("request"))
  {
    match Get(msg, "msg-type")
    case Some(JStr(s)) =>
      if s == "request" then ReqMsg
      else if s == "accept" then AcceptMsg
      else if s == "notify" then NotifyMsg
      else if s == "complete" then CompleteMsg
      else if s == "fail" then FailMsg
      else UndefinedMsg
    case _ => UndefinedMsg
  }

  /** A request that passed validation. */
  datatype Request = Request(taId: int, taType: TaType, reqValues: seq<Option<Value>>, optReqValues: seq<Option<Value>>)

  /** The checks proto_ta_req makes, in order; None for a rejected request. */
  function ParseRequest(msg: Json): Option<Request> {
    match TaIdOf(msg)
    case None => None
    case Some(taId) =>
      match CmdOf(msg)
      case None => None
      case Some(cmd) =>
        if MsgTypeOf(msg) != ReqMsg then None
        else match TypeNamed(cmd)
          case None => None
          case Some(t) =>
            match GetFields(msg, t.reqFields, false)
            case None => None
            case Some(req) =>
              match GetFields(msg, t.optReqFields, true)
              case None => None
              case Some(optReq) =>
                if ObjectSize(msg) > NUM_MANDATORY_FIELDS + req.count + optReq.count then None
                else Some(Request(taId, t, req.values, optReq.values))
  }

  /**
   * The reasons a request is rejected: a missing or negative ta-id, a
   * msg-type other than "request", an unknown or non-string ta-cmd, a
   * field rejected by get_fields, or more members than the three mandatory
   * fields and the fields read.
   */
  lemma RequestRejections(msg: Json)
    ensures TaIdOf(msg).None? ==> ParseRequest(msg).None?
    ensures MsgTypeOf(msg) != ReqMsg ==> ParseRequest(msg).None?
    ensures CmdOf(msg).None? || TypeNamed(CmdOf(msg).value).None? ==> ParseRequest(msg).None?
    ensures CmdOf(msg).Some? && TypeNamed(CmdOf(msg).value).Some? ==>
              var t := TypeNamed(CmdOf(msg).value).value;
              (exists i :: 0 <= i < |t.reqFields| && GetField(msg, t.reqFields[i], false).None?)
              || (exists i :: 0 <= i < |t.optReqFields| && GetField(msg, t.optReqFields[i], true).None?)
              ==> ParseRequest(msg).None?
    ensures ParseRequest(msg).Some? ==>
              var r := ParseRequest(msg).value;
              ObjectSize(msg) <= NUM_MANDATORY_FIELDS + CountPresent(r.reqValues) + CountPresent(r.optReqValues)
  {
    ParseRequestSteps(msg);
    if CmdOf(msg).Some? && TypeNamed(CmdOf(msg).value).Some? {
      var t := TypeNamed(CmdOf(msg).value).value;
      GetFieldsLaw(msg, t.reqFields, false);
      GetFieldsLaw(msg, t.optReqFields, true);
    }
  }

  /** The checks of ParseRequest one after the other. */
  lemma ParseRequestSteps(msg: Json)
    ensures ParseRequest(msg).Some? <==>
              TaIdOf(msg).Some? && CmdOf(msg).Some? && MsgTypeOf(msg) == ReqMsg && TypeNamed(CmdOf(msg).value).Some?
              && GetFields(msg, TypeNamed(CmdOf(msg).value).value.reqFields, false).Some?
              && GetFields(msg, TypeNamed(CmdOf(msg).value).value.optReqFields, true).Some?
              && ObjectSize(msg) <= NUM_MANDATORY_FIELDS
                                    + GetFields(msg, TypeNamed(CmdOf(msg).value).value.reqFields, false).value.count
                                    + GetFields(msg, TypeNamed(CmdOf(msg).value).value.optReqFields, true).value.count
    ensures ParseRequest(msg).Some? ==>
              ParseRequest(msg).value == Request(TaIdOf(msg).value, TypeNamed(CmdOf(msg).value).value,
                                                 GetFields(msg, TypeNamed(CmdOf(msg).value).value.reqFields, false).value.values,
                                                 GetFields(msg, TypeNamed(CmdOf(msg).value).value.optReqFields, true).value.values)
  {
  }

  /** An accepted request names a known command and carries every required field, each of its type. */
  lemma RequestAccepted(msg: Json)
    requires ParseRequest(msg).Some?
    ensures var r := ParseRequest(msg).value;
      r.taId >= 0 && Get(msg, "ta-id") == Some(JInt(r.taId))
      && r.taType in Types && CmdOf(msg) == Some(r.taType.cmd)
      && Get(msg, "msg-type") == Some(JStr("request"))
      && Typed(r.taType.reqFields, r.reqValues, false) && Typed(r.taType.optReqFields, r.optReqValues, true)
      && ObjectSize(msg) <= NUM_MANDATORY_FIELDS + |r.reqValues| + |r.optReqValues|
  {
    var r := ParseRequest(msg).value;
    var t := TypeNamed(CmdOf(msg).value).value;
    var req := GetFields(msg, t.reqFields, false).value;
    var optReq := GetFields(msg, t.optReqFields, true).value;
    GetFieldsLaw(msg, t.reqFields, false);
    GetFieldsLaw(msg, t.optReqFields, true);
    assert r.reqValues == req.values && r.optReqValues == optReq.values;
  }

  // ---------------------------------------------------------------------
  // The transaction state machine

  datatype TaState = Initialized | Requested | Accepted | Completed | Failed

  /** The responses a transaction can send. */
  datatype Event = AcceptEvent | NotifyEvent | CompleteEvent | FailEvent

  /** proto_ta_has_term. */
  predicate IsTerminal(s: TaState) {
    s == Completed || s == Failed
  }

  /**
   * The state after a response, or None where the source asserts: accept
   * from requested and notify from accepted, for multi-response commands
   * only; complete from requested for single-response and from accepted for
   * multi-response commands; fail from any state that is not terminal.
   */
  function Next(s: TaState, ia: IaType, e: Event): (r: Option<TaState>)
    ensures r.Some? ==> !IsTerminal(s)
    ensures r == Some(Accepted) ==> ia == MultiResponse
    ensures e == FailEvent ==> (r.Some? <==> !IsTerminal(s))
  {
    match e
    case AcceptEvent => if ia == MultiResponse && s == Requested then Some(Accepted) else None
    case NotifyEvent => if ia == MultiResponse && s == Accepted then Some(Accepted) else None
    case CompleteEvent =>
      if (ia == SingleResponse && s == Requested) || (ia == MultiResponse && s == Accepted) then Some(Completed)
      else None
    case FailEvent => if !IsTerminal(s) then Some(Failed) else None
  }

  /** The state after a sequence of responses, if every one is allowed. */
  function Run(s: TaState, ia: IaType, es: seq<Event>): Option<TaState>
    decreases |es|
  {
    if |es| == 0 then Some(s)
    else match Next(s, ia, es[0])
      case None => None
      case Some(s') => Run(s', ia, es[1..])
  }

  /** A single-response transaction is never accepted, whatever it is sent. */
  lemma {:induction false} SingleNeverAccepted(s: TaState, es: seq<Event>)
    requires s != Accepted
    ensures Run(s, SingleResponse, es) != Some(Accepted)
    decreases |es|
  {
    if |es| > 0 && Next(s, SingleResponse, es[0]).Some? {
      SingleNeverAccepted(Next(s, SingleResponse, es[0]).value, es[1..]);
    }
  }

  /**
   * A transaction sends at most one terminal response, and it is the last:
   * every response before it is an accept or a notify.
   */
  lemma {:induction false} TerminalIsLast(s: TaState, ia: IaType, es: seq<Event>)
    requires Run(s, ia, es).Some?
    ensures forall i :: 0 <= i < |es| - 1 ==> es[i] == AcceptEvent || es[i] == NotifyEvent
    ensures IsTerminal(s) ==> es == []
    decreases |es|
  {
    if |es| > 0 {
      var s' := Next(s, ia, es[0]).value;
      TerminalIsLast(s', ia, es[1..]);
      if |es| > 1 {
        assert !IsTerminal(s') by {
          assert Next(s', ia, es[1]).Some?;
        }
      }
      assert forall i :: 1 <= i < |es| ==> es[i] == es[1..][i - 1];
    }
  }

  /** A response message; its fields are carried as they are given. */
  datatype Response = Response(cmd: string, taId: int, msgType: MsgType, args: seq<Option<Value>>)

  /** The message type of each response kind. */
  function EventMsgType(e: Event): MsgType {
    match e
    case AcceptEvent => AcceptMsg
    case NotifyEvent => NotifyMsg
    case CompleteEvent => CompleteMsg
    case FailEvent => FailMsg
  }

  class Ta {
    var state: TaState
    var taId: int
    var taType: Option<TaType>
    var reqValues: seq<Option<Value>>
    var optReqValues: seq<Option<Value>>

    /** A transaction that was requested has its command and fields; a fresh one has no values. */
    ghost predicate Valid()
      reads this
    {
      (state == Initialized ==> reqValues == [] && optReqValues == [])
      && (state == Requested || state == Accepted || state == Completed ==>
            taType.Some? && taType.value in Types
            && Typed(taType.value.reqFields, reqValues, false) && Typed(taType.value.optReqFields, optReqValues, true))
    }

    /** proto_ta_create. */
    constructor ()
      ensures Valid() && state == Initialized && taId == -1 && taType.None?
    {
      state := Initialized;
      taId := -1;
      taType := None;
      reqValues := [];
      optReqValues := [];
    }

    /**
     * proto_ta_req: validates the request. The ta-id is kept once read and
     * the command once looked up, even when a later check rejects the
     * request; only an accepted request moves the state on.
     */
    method Req(msg: Json) returns (rc: int)
      requires Valid() && state == Initialized
      modifies this
      ensures Valid()
      ensures rc == 0 <==> ParseRequest(msg).Some?
      ensures rc == 0 || rc == -1
      ensures rc == 0 ==>
                var r := ParseRequest(msg).value;
                state == Requested && taId == r.taId && taType == Some(r.taType)
                && reqValues == r.reqValues && optReqValues == r.optReqValues
      ensures rc != 0 ==>
                state == Initialized && reqValues == [] && optReqValues == []
                && taId == (if TaIdOf(msg).Some? then TaIdOf(msg).value else old(taId))
                && taType == (if TaIdOf(msg).Some? && CmdOf(msg).Some? && MsgTypeOf(msg) == ReqMsg
                              then TypeNamed(CmdOf(msg).value) else old(taType))
    {
      ParseRequestSteps(msg);
      var id := TaIdOf(msg);
      if id.None? {
        return -1;
      }
      taId := id.value;
      var cmd := CmdOf(msg);
      if cmd.None? {
        return -1;
      }
      if MsgTypeOf(msg) != ReqMsg {
        return -1;
      }
      var t := LookupType(cmd.value);
      taType := t;
      if t.None? {
        return -1;
      }
      var req, numReq := FetchFields(msg, t.value.reqFields, false);
      if numReq < 0 {
        return -1;
      }
      var optReq, numOptReq := FetchFields(msg, t.value.optReqFields, true);
      if numOptReq < 0 {
        return -1;
      }
      if ObjectSize(msg) > NUM_MANDATORY_FIELDS + numReq + numOptReq {
        return -1;
      }
      GetFieldsLaw(msg, t.value.reqFields, false);
      GetFieldsLaw(msg, t.value.optReqFields, true);
      assert Typed(t.value.reqFields, req, false) && Typed(t.value.optReqFields, optReq, true);
      reqValues := req;
      optReqValues := optReq;
      state := Requested;
      return 0;
    }

    /** produce_response and the state change of proto_ta_accept, _notify, _complete and _fail. */
    method Respond(e: Event, args: seq<Option<Value>>) returns (msg: Response)
      requires Valid() && taType.Some? && Next(state, taType.value.iaType, e).Some?
      modifies this
      ensures Valid()
      ensures taId == old(taId) && taType == old(taType)
      ensures state == Next(old(state), taType.value.iaType, e).value
      ensures msg == Response(taType.value.cmd, taId, EventMsgType(e), args)
      ensures reqValues == old(reqValues) && optReqValues == old(optReqValues)
    {
      msg := Response(taType.value.cmd, taId, EventMsgType(e), args);
      state := Next(state, taType.value.iaType, e).value;
    }

    /** proto_ta_has_term. */
    method HasTerm() returns (r: bool)
      ensures r <==> IsTerminal(state)
      ensures r ==> forall ia, e :: Next(state, ia, e).None?
    {
      r := state == Failed || state == Completed;
    }
  }
}
