/** Reading one message (packages/api/agentlink/json.go): required members, exact integer
types, unknown members ignored, unknown tags and enum values read as the other variant. */
module WireDecode {
  import opened Wrappers
  import opened Decimal
  import opened Protocol
  import opened Json
  import Utf8

  datatype DecodeError =
    | InvalidUtf8
    | NotAnObject
    | Syntax
    | MissingField(name: string)
    | InvalidType(name: string)
    | InvalidValue(name: string)

  type Read<+T> = Result<T, DecodeError>

  /** The members of a message object; the last of several with one name counts. */
  type Fields = seq<Member>

  function Get(f: Fields, name: string): Option<Json> {
    if f == [] then None
    else if f[|f| - 1].name == name then Some(f[|f| - 1].value)
    else Get(f[..|f| - 1], name)
  }

  function Required(f: Fields, name: string): Read<Json> {
    match Get(f, name)
    case None => Err(MissingField(name))
    case Some(j) => Ok(j)
  }

  function DecodeString(name: string, j: Json): Read<string> {
    if j.Str? then Ok(j.s) else Err(InvalidType(name))
  }

  function DecodeUint(name: string, j: Json, limit: nat): Read<nat> {
    if !j.Num? then Err(InvalidType(name))
    else
      match ParseUint(j.raw, limit)
      case None => Err(InvalidValue(name))
      case Some(v) => Ok(v)
  }

  function DecodeArray(name: string, j: Json): Read<seq<Json>> {
    if j.Arr? then Ok(j.items) else Err(InvalidType(name))
  }

  function StrField(f: Fields, name: string): Read<string> {
    var raw :- Required(f, name);
    DecodeString(name, raw)
  }

  /** Absent or null is None. */
  function OptStrField(f: Fields, name: string): Read<Option<string>> {
    var raw := Get(f, name);
    if raw.None? || raw.value.Null? then Ok(None)
    else
      var s :- DecodeString(name, raw.value);
      Ok(Some(s))
  }

  function U64Field(f: Fields, name: string): (r: Read<nat>)
    ensures r.Ok? ==> r.value < TWO_TO_THE_64
  {
    var raw :- Required(f, name);
    DecodeUint(name, raw, TWO_TO_THE_64)
  }

  function U32Field(f: Fields, name: string): (r: Read<nat>)
    ensures r.Ok? ==> r.value < TWO_TO_THE_32
  {
    var raw :- Required(f, name);
    DecodeUint(name, raw, TWO_TO_THE_32)
  }

  function I64Field(f: Fields, name: string): (r: Read<int>)
    ensures r.Ok? ==> -TWO_TO_THE_63 <= r.value < TWO_TO_THE_63
  {
    var raw :- Required(f, name);
    if !raw.Num? then Err(InvalidType(name))
    else
      match ParseInt(raw.raw, TWO_TO_THE_63)
      case None => Err(InvalidValue(name))
      case Some(v) => Ok(v)
  }

  function DecodeU32s(name: string, items: seq<Json>): Read<seq<u32>> {
    if items == [] then Ok([])
    else
      var before :- DecodeU32s(name, items[..|items| - 1]);
      var v :- DecodeUint(name, items[|items| - 1], TWO_TO_THE_32);
      Ok(before + [v])
  }

  function DecodeStrings(name: string, items: seq<Json>): Read<seq<string>> {
    if items == [] then Ok([])
    else
      var before :- DecodeStrings(name, items[..|items| - 1]);
      var s :- DecodeString(name, items[|items| - 1]);
      Ok(before + [s])
  }

  function U32sField(f: Fields, name: string): Read<seq<u32>> {
    var raw :- Required(f, name);
    var items :- DecodeArray(name, raw);
    DecodeU32s(name, items)
  }

  /** A set: required, or empty when absent. */
  function SetField(f: Fields, name: string, required: bool): Read<Features> {
    var raw := Get(f, name);
    if raw.None? then
      if required then Err(MissingField(name)) else Ok([])
    else
      var items :- DecodeArray(name, raw.value);
      var names :- DecodeStrings(name, items);
      Ok(NewFeatures(names))
  }

  /** The loop of fields.u32s: the first item that is no u32 ends it. */
  method ReadU32s(f: Fields, name: string) returns (r: Read<seq<u32>>)
    ensures r == U32sField(f, name)
  {
    var raw :- Required(f, name);
    var items :- DecodeArray(name, raw);
    var out: seq<u32> := [];
    for i := 0 to |items|
      invariant DecodeU32s(name, items[..i]) == Ok(out)
    {
      assert items[..i + 1][..i] == items[..i];
      var v := DecodeUint(name, items[i], TWO_TO_THE_32);
      if v.Err? {
        U32sStop(name, items, i + 1);
        return Err(v.error);
      }
      out := out + [v.value];
    }
    assert items[..|items|] == items;
    return Ok(out);
  }

  lemma {:induction false} U32sStop(name: string, items: seq<Json>, n: nat)
    requires n <= |items| && DecodeU32s(name, items[..n]).Err?
    ensures DecodeU32s(name, items) == DecodeU32s(name, items[..n])
  {
    if n == |items| {
      assert items[..n] == items;
    } else {
      var m := |items| - 1;
      assert items[..m][..n] == items[..n];
      U32sStop(name, items[..m], n);
    }
  }

  // ---------- Variants ----------

  function HelloOf(f: Fields): Read<Message> {
    var versions :- U32sField(f, "protocolVersions");
    var agent :- StrField(f, "agentVersion");
    var cluster :- StrField(f, "clusterId");
    var capabilities :- SetField(f, "capabilities", false);
    var kubernetes :- OptStrField(f, "kubernetesVersion");
    Ok(Hello(versions, agent, cluster, capabilities, kubernetes))
  }

  function WelcomeOf(f: Fields): Read<Message> {
    var version :- U32Field(f, "protocolVersion");
    var hub :- StrField(f, "hubVersion");
    var heartbeat :- U64Field(f, "heartbeatMs");
    var features :- SetField(f, "features", true);
    Ok(Welcome(version, hub, heartbeat, features))
  }

  function RefusedOf(f: Fields): Read<Message> {
    var reason :- StrField(f, "reason");
    var message :- StrField(f, "message");
    Ok(Refused(ParseRefusal(reason), message))
  }

  function EnrollOf(f: Fields): Read<Message> {
    var token :- StrField(f, "token");
    var cluster :- StrField(f, "clusterId");
    var csr :- StrField(f, "csr");
    Ok(Enroll(token, cluster, csr))
  }

  function EnrolledOf(f: Fields): Read<Message> {
    var certificate :- StrField(f, "certificate");
    var notAfter :- I64Field(f, "notAfter");
    Ok(Enrolled(certificate, notAfter))
  }

  function ApplyOf(f: Fields): Read<Message> {
    var target :- StrField(f, "target");
    var namespace :- StrField(f, "namespace");
    var name :- StrField(f, "name");
    var spec :- StrField(f, "spec");
    Ok(Apply(target, namespace, name, spec))
  }

  function ObservedOf(f: Fields): Read<Message> {
    var target :- StrField(f, "target");
    var generation :- I64Field(f, "generation");
    var phase :- StrField(f, "phase");
    var reason :- OptStrField(f, "reason");
    var message :- OptStrField(f, "message");
    Ok(Observation(target, generation, ParseRuntimePhase(phase), reason, message))
  }

  /** fields.variant */
  function Variant(f: Fields, tag: string): Read<Message> {
    if tag == "hello" then HelloOf(f)
    else if tag == "welcome" then WelcomeOf(f)
    else if tag == "refused" then RefusedOf(f)
    else if tag == "heartbeat" then
      var n :- U64Field(f, "seq");
      Ok(Heartbeat(n))
    else if tag == "heartbeatAck" then
      var n :- U64Field(f, "seq");
      Ok(HeartbeatAck(n))
    else if tag == "enroll" then EnrollOf(f)
    else if tag == "renew" then
      var csr :- StrField(f, "csr");
      Ok(Renew(csr))
    else if tag == "enrolled" then EnrolledOf(f)
    else if tag == "apply" then ApplyOf(f)
    else if tag == "observed" then ObservedOf(f)
    else Ok(Unknown)
  }

  // ---------- bytes.TrimSpace ----------

  /** The bytes of one Unicode space at the front of t, or 0. */
  function SpaceAt(t: string): (n: nat)
    ensures n <= |t|
  {
    if |t| >= 1 && (9 <= t[0] as int <= 13 || t[0] == ' ') then 1
    else if |t| >= 2 && t[0] as int == 0xC2 && (t[1] as int == 0x85 || t[1] as int == 0xA0) then 2
    else if |t| >= 3 && IsSpace3(t[0] as int, t[1] as int, t[2] as int) then 3
    else 0
  }

  /** U+1680, U+2000 to U+200A, U+2028, U+2029, U+202F, U+205F and U+3000 */
  predicate IsSpace3(a: int, b: int, c: int) {
    || (a == 0xE1 && b == 0x9A && c == 0x80)
    || (a == 0xE2 && b == 0x80 && (0x80 <= c <= 0x8A || c == 0xA8 || c == 0xA9 || c == 0xAF))
    || (a == 0xE2 && b == 0x81 && c == 0x9F)
    || (a == 0xE3 && b == 0x80 && c == 0x80)
  }

  function TrimLeft(t: string): (r: string)
    decreases |t|
  {
    if SpaceAt(t) > 0 then TrimLeft(t[SpaceAt(t)..]) else t
  }

  /** The bytes of one Unicode space at the end of t, or 0. */
  function SpaceBefore(t: string): (n: nat)
    ensures n <= |t|
  {
    if |t| >= 1 && SpaceAt(t[|t| - 1..]) == 1 then 1
    else if |t| >= 2 && SpaceAt(t[|t| - 2..]) == 2 then 2
    else if |t| >= 3 && SpaceAt(t[|t| - 3..]) == 3 then 3
    else 0
  }

  function TrimRight(t: string): (r: string)
    decreases |t|
  {
    if SpaceBefore(t) > 0 then TrimRight(t[..|t| - SpaceBefore(t)]) else t
  }

  function TrimSpace(t: string): string {
    TrimRight(TrimLeft(t))
  }

  /** Decode */
  function Decode(body: string): Read<Message> {
    if !Utf8.Valid(body) then Err(InvalidUtf8)
    else
      var trimmed := TrimSpace(body);
      if trimmed == "" || trimmed[0] != '{' then Err(NotAnObject)
      else
        match Parse(trimmed)
        case Some(Obj(f)) =>
          var raw :- Required(f, "type");
          var tag :- DecodeString("type", raw);
          Variant(f, tag)
        case _ => Err(Syntax)
  }
}
