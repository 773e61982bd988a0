/** Which error the reader of the link gives (packages/api/agentlink/json.go): that of the first
member, in the order of the message, that is missing or not what is needed. */
module WireFaults {
  import opened Wrappers
  import opened Decimal
  import opened Protocol
  import opened Json
  import opened JsonRoundTrip
  import JsonGrammar
  import opened WireDecode
  import opened WireReads
  import Utf8

  /** What a message needs of one member. */
  datatype Need =
    | NeedText(name: string)
    | NeedUnsigned(name: string, limit: nat)
    | NeedSigned(name: string)
    | NeedNumbers(name: string)
    | NeedSet(name: string)
    | MaySet(name: string)
    | MayText(name: string)

  /** In the order in which they are looked at. */
  function Needs(tag: string): seq<Need> {
    if tag == "hello" then
      [NeedNumbers("protocolVersions"), NeedText("agentVersion"), NeedText("clusterId"), MaySet("capabilities"),
       MayText("kubernetesVersion")]
    else if tag == "welcome" then
      [NeedUnsigned("protocolVersion", TWO_TO_THE_32), NeedText("hubVersion"), NeedUnsigned("heartbeatMs", TWO_TO_THE_64),
       NeedSet("features")]
    else if tag == "refused" then [NeedText("reason"), NeedText("message")]
    else if tag == "heartbeat" || tag == "heartbeatAck" then [NeedUnsigned("seq", TWO_TO_THE_64)]
    else if tag == "enroll" then [NeedText("token"), NeedText("clusterId"), NeedText("csr")]
    else if tag == "renew" then [NeedText("csr")]
    else if tag == "enrolled" then [NeedText("certificate"), NeedSigned("notAfter")]
    else if tag == "apply" then [NeedText("target"), NeedText("namespace"), NeedText("name"), NeedText("spec")]
    else if tag == "observed" then
      [NeedText("target"), NeedSigned("generation"), NeedText("phase"), MayText("reason"), MayText("message")]
    else []
  }

  ghost predicate NoUnsigned(name: string, j: Json, limit: nat, e: DecodeError) {
    if !j.Num? then e == InvalidType(name)
    else e == InvalidValue(name) && forall n: nat :: n < limit ==> j != Num(FormatInt(n))
  }

  ghost predicate NoSigned(name: string, j: Json, e: DecodeError) {
    if !j.Num? then e == InvalidType(name)
    else
      && e == InvalidValue(name) && j != Num("-0")
      && forall n :: -TWO_TO_THE_63 <= n < TWO_TO_THE_63 ==> j != Num(FormatInt(n))
  }

  /** The first item that is no u32 decides. */
  ghost predicate NoNumbers(name: string, j: Json, e: DecodeError) {
    if !j.Arr? then e == InvalidType(name)
    else
      exists i :: 0 <= i < |j.items| && NoUnsigned(name, j.items[i], TWO_TO_THE_32, e)
                  && forall k, x :: 0 <= k < i ==> !NoUnsigned(name, j.items[k], TWO_TO_THE_32, x)
  }

  ghost predicate NoStrings(name: string, j: Json, e: DecodeError) {
    e == InvalidType(name) && (!j.Arr? || exists i :: 0 <= i < |j.items| && !j.items[i].Str?)
  }

  ghost predicate Missing(f: Fields, name: string, e: DecodeError) {
    Lacks(f, name) && e == MissingField(name)
  }

  /** The member does not meet the need, which is the error e. */
  ghost predicate Fault(f: Fields, need: Need, e: DecodeError) {
    match need
    case NeedText(name) => Missing(f, name, e) || exists j :: Holds(f, name, j) && !j.Str? && e == InvalidType(name)
    case NeedUnsigned(name, limit) => Missing(f, name, e) || exists j :: Holds(f, name, j) && NoUnsigned(name, j, limit, e)
    case NeedSigned(name) => Missing(f, name, e) || exists j :: Holds(f, name, j) && NoSigned(name, j, e)
    case NeedNumbers(name) => Missing(f, name, e) || exists j :: Holds(f, name, j) && NoNumbers(name, j, e)
    case NeedSet(name) => Missing(f, name, e) || exists j :: Holds(f, name, j) && NoStrings(name, j, e)
    case MaySet(name) => exists j :: Holds(f, name, j) && NoStrings(name, j, e)
    case MayText(name) => exists j :: Holds(f, name, j) && !j.Str? && !j.Null? && e == InvalidType(name)
  }

  /** The first need that is not met decides. */
  ghost predicate FirstFault(f: Fields, needs: seq<Need>, e: DecodeError) {
    exists i :: 0 <= i < |needs| && Fault(f, needs[i], e) && forall k, x :: 0 <= k < i ==> !Fault(f, needs[k], x)
  }

  /** The error of reading one member. */
  function Attempt(f: Fields, need: Need): Option<DecodeError> {
    match need
    case NeedText(name) => ErrorOf(StrField(f, name))
    case NeedUnsigned(name, limit) =>
      if Get(f, name).None? then Some(MissingField(name)) else ErrorOf(DecodeUint(name, Get(f, name).value, limit))
    case NeedSigned(name) => ErrorOf(I64Field(f, name))
    case NeedNumbers(name) => ErrorOf(U32sField(f, name))
    case NeedSet(name) => ErrorOf(SetField(f, name, true))
    case MaySet(name) => ErrorOf(SetField(f, name, false))
    case MayText(name) => ErrorOf(OptStrField(f, name))
  }

  function ErrorOf<T>(r: Read<T>): Option<DecodeError> {
    if r.Err? then Some(r.error) else None
  }

  /** The first of them, from the i-th need on. */
  function FirstError(f: Fields, needs: seq<Need>, i: nat): Option<DecodeError>
    requires i <= |needs|
    decreases |needs| - i
  {
    if i == |needs| then None
    else if Attempt(f, needs[i]).Some? then Attempt(f, needs[i])
    else FirstError(f, needs, i + 1)
  }

  lemma UintFault(name: string, j: Json, limit: nat, e: DecodeError)
    requires NumbersOk(j)
    ensures DecodeUint(name, j, limit) == Err(e) <==> NoUnsigned(name, j, limit, e)
  {
    hide ParseUint, FormatInt, SkipNumber;
    forall n: nat ensures DecodeUint(name, j, limit) == Ok(n) <==> n < limit && j == Num(FormatInt(n)) {
      UintSays(name, j, limit, n);
    }
    if j.Num? && DecodeUint(name, j, limit).Ok? {
      assert j == Num(FormatInt(DecodeUint(name, j, limit).value));
    }
  }

  lemma SignedFault(f: Fields, name: string, j: Json, e: DecodeError)
    requires Literals(f) && Get(f, name) == Some(j)
    ensures I64Field(f, name) == Err(e) <==> NoSigned(name, j, e)
  {
    hide ParseInt, FormatInt, SkipNumber, Get;
    GetIsLast(f, name);
    HeldLiterals(f, name, j);
    if j.Num? {
      forall n ensures ParseInt(j.raw, TWO_TO_THE_63) == Some(n) <==>
        -TWO_TO_THE_63 <= n < TWO_TO_THE_63 && (j.raw == FormatInt(n) || (n == 0 && j.raw == "-0"))
      {
        SignedLiteral(j.raw, n);
      }
      SignedLiteral(j.raw, 0);
      if ParseInt(j.raw, TWO_TO_THE_63).Some? {
        SignedLiteral(j.raw, ParseInt(j.raw, TWO_TO_THE_63).value);
      }
    }
  }

  lemma {:induction false} U32sStopAt(name: string, items: seq<Json>, e: DecodeError)
    ensures DecodeU32s(name, items).Ok? <==> forall i :: 0 <= i < |items| ==> DecodeUint(name, items[i], TWO_TO_THE_32).Ok?
    ensures DecodeU32s(name, items) == Err(e) <==>
      exists i :: 0 <= i < |items| && DecodeUint(name, items[i], TWO_TO_THE_32) == Err(e)
                  && forall k :: 0 <= k < i ==> DecodeUint(name, items[k], TWO_TO_THE_32).Ok?
    decreases |items|
  {
    hide DecodeUint;
    if items != [] {
      var n := |items| - 1;
      U32sStopAt(name, items[..n], e);
      assert forall i | 0 <= i < n :: items[..n][i] == items[i];
    }
  }

  lemma U32sFault(name: string, j: Json, e: DecodeError)
    requires NumbersOk(j) && j.Arr?
    ensures DecodeU32s(name, j.items) == Err(e) <==> NoNumbers(name, j, e)
  {
    hide DecodeUint, NoUnsigned, DecodeU32s;
    U32sStopAt(name, j.items, e);
    forall i, x | 0 <= i < |j.items|
      ensures DecodeUint(name, j.items[i], TWO_TO_THE_32) == Err(x) <==> NoUnsigned(name, j.items[i], TWO_TO_THE_32, x)
    {
      UintFault(name, j.items[i], TWO_TO_THE_32, x);
    }
    forall i | 0 <= i < |j.items|
      ensures DecodeUint(name, j.items[i], TWO_TO_THE_32).Ok? <==> forall x :: !NoUnsigned(name, j.items[i], TWO_TO_THE_32, x)
    {
      var r := DecodeUint(name, j.items[i], TWO_TO_THE_32);
      assert r.Err? ==> NoUnsigned(name, j.items[i], TWO_TO_THE_32, r.error);
      forall x ensures r == Err(x) <==> NoUnsigned(name, j.items[i], TWO_TO_THE_32, x) {
        UintFault(name, j.items[i], TWO_TO_THE_32, x);
      }
    }
  }

  lemma {:induction false} StringsStop(name: string, items: seq<Json>)
    ensures DecodeStrings(name, items).Ok? <==> forall i :: 0 <= i < |items| ==> items[i].Str?
    ensures DecodeStrings(name, items).Err? ==> DecodeStrings(name, items).error == InvalidType(name)
    decreases |items|
  {
    if items != [] {
      var n := |items| - 1;
      StringsStop(name, items[..n]);
      assert forall i | 0 <= i < n :: items[..n][i] == items[i];
    }
  }

  lemma SetFault(f: Fields, name: string, required: bool, e: DecodeError)
    ensures SetField(f, name, required) == Err(e) <==>
      (required && Missing(f, name, e)) || exists j :: Holds(f, name, j) && NoStrings(name, j, e)
  {
    hide Get, Holds, Lacks, DecodeStrings, NewFeatures;
    GetIsLast(f, name);
    if Get(f, name).Some? && Get(f, name).value.Arr? {
      StringsStop(name, Get(f, name).value.items);
    }
  }

  lemma NumbersFault(f: Fields, name: string, e: DecodeError)
    requires Literals(f)
    ensures U32sField(f, name) == Err(e) <==> Missing(f, name, e) || exists j :: Holds(f, name, j) && NoNumbers(name, j, e)
  {
    hide Get, Holds, Lacks, DecodeU32s, NumbersOk;
    GetIsLast(f, name);
    if Get(f, name).Some? {
      var j := Get(f, name).value;
      HeldLiterals(f, name, j);
      if j.Arr? {
        U32sFault(name, j, e);
      }
    }
  }

  lemma UnsignedFault(f: Fields, name: string, limit: nat, e: DecodeError)
    requires Literals(f)
    ensures Attempt(f, NeedUnsigned(name, limit)) == Some(e) <==> Fault(f, NeedUnsigned(name, limit), e)
  {
    hide Get, Holds, Lacks, DecodeUint, NoUnsigned, NumbersOk;
    GetIsLast(f, name);
    if Get(f, name).Some? {
      HeldLiterals(f, name, Get(f, name).value);
      UintFault(name, Get(f, name).value, limit, e);
    }
  }

  /** A need is attempted in vain exactly when the member does not meet it. */
  lemma AttemptFails(f: Fields, need: Need, e: DecodeError)
    requires Literals(f)
    ensures Attempt(f, need) == Some(e) <==> Fault(f, need, e)
  {
    hide Get, Holds, Lacks, U32sField, SetField, NoNumbers, NoStrings, NoSigned, Literals, I64Field, DecodeUint, NoUnsigned;
    GetIsLast(f, need.name);
    match need
    case NeedText(name) =>
    case NeedUnsigned(name, limit) => UnsignedFault(f, name, limit, e);
    case NeedSigned(name) => SignedNeed(f, name, e);
    case NeedNumbers(name) => NumbersFault(f, name, e);
    case NeedSet(name) => SetFault(f, name, true, e);
    case MaySet(name) => SetFault(f, name, false, e);
    case MayText(name) =>
  }

  lemma SignedNeed(f: Fields, name: string, e: DecodeError)
    requires Literals(f)
    ensures Attempt(f, NeedSigned(name)) == Some(e) <==> Fault(f, NeedSigned(name), e)
  {
    hide Get, Holds, Lacks, NoSigned, Literals, ParseInt;
    GetIsLast(f, name);
    if Get(f, name).Some? {
      SignedFault(f, name, Get(f, name).value, e);
    }
  }

  ghost predicate FirstFaultFrom(f: Fields, needs: seq<Need>, i: nat, e: DecodeError) {
    exists k :: i <= k < |needs| && Fault(f, needs[k], e) && forall h, x :: i <= h < k ==> !Fault(f, needs[h], x)
  }

  lemma {:induction false} FirstErrorIsFirst(f: Fields, needs: seq<Need>, i: nat, e: DecodeError)
    requires Literals(f) && i <= |needs|
    ensures FirstError(f, needs, i) == Some(e) <==> FirstFaultFrom(f, needs, i, e)
    decreases |needs| - i
  {
    hide Attempt, Fault, Literals;
    if i < |needs| {
      forall x ensures Attempt(f, needs[i]) == Some(x) <==> Fault(f, needs[i], x) {
        AttemptFails(f, needs[i], x);
      }
      FirstErrorIsFirst(f, needs, i + 1, e);
      if Attempt(f, needs[i]).Some? {
        assert Fault(f, needs[i], Attempt(f, needs[i]).value);
      }
    }
  }

  // ---------- One message at a time ----------

  lemma HelloFault(f: Fields)
    ensures ErrorOf(HelloOf(f)) == FirstError(f, Needs("hello"), 0)
  {
    hide U32sField, StrField, SetField, OptStrField;
    var needs := Needs("hello");
    assert FirstError(f, needs, 3) == FirstError(f, needs[..], 3);
    assert FirstError(f, needs, 1) == if Attempt(f, needs[1]).Some? then Attempt(f, needs[1]) else FirstError(f, needs, 2);
    assert FirstError(f, needs, 3) == if Attempt(f, needs[3]).Some? then Attempt(f, needs[3]) else FirstError(f, needs, 4);
  }

  lemma WelcomeFault(f: Fields)
    ensures ErrorOf(WelcomeOf(f)) == FirstError(f, Needs("welcome"), 0)
  {
    hide StrField, SetField, DecodeUint;
    var needs := Needs("welcome");
    assert FirstError(f, needs, 1) == if Attempt(f, needs[1]).Some? then Attempt(f, needs[1]) else FirstError(f, needs, 2);
    assert FirstError(f, needs, 3) == if Attempt(f, needs[3]).Some? then Attempt(f, needs[3]) else FirstError(f, needs, 4);
  }

  lemma ApplyFault(f: Fields)
    ensures ErrorOf(ApplyOf(f)) == FirstError(f, Needs("apply"), 0)
  {
    hide StrField;
    var needs := Needs("apply");
    assert FirstError(f, needs, 1) == if Attempt(f, needs[1]).Some? then Attempt(f, needs[1]) else FirstError(f, needs, 2);
    assert FirstError(f, needs, 3) == if Attempt(f, needs[3]).Some? then Attempt(f, needs[3]) else FirstError(f, needs, 4);
  }

  lemma ObservedFault(f: Fields)
    ensures ErrorOf(ObservedOf(f)) == FirstError(f, Needs("observed"), 0)
  {
    hide StrField, I64Field, OptStrField;
    var needs := Needs("observed");
    assert FirstError(f, needs, 1) == if Attempt(f, needs[1]).Some? then Attempt(f, needs[1]) else FirstError(f, needs, 2);
    assert FirstError(f, needs, 3) == if Attempt(f, needs[3]).Some? then Attempt(f, needs[3]) else FirstError(f, needs, 4);
  }

  lemma EnrollFault(f: Fields)
    ensures ErrorOf(EnrollOf(f)) == FirstError(f, Needs("enroll"), 0)
  {
    hide StrField;
    var needs := Needs("enroll");
    assert FirstError(f, needs, 1) == if Attempt(f, needs[1]).Some? then Attempt(f, needs[1]) else FirstError(f, needs, 2);
  }

  lemma TwoFault(f: Fields, tag: string)
    requires tag in {"refused", "enrolled"}
    ensures ErrorOf(if tag == "refused" then RefusedOf(f) else EnrolledOf(f)) == FirstError(f, Needs(tag), 0)
  {
    hide StrField, I64Field;
    var needs := Needs(tag);
    assert FirstError(f, needs, 1) == if Attempt(f, needs[1]).Some? then Attempt(f, needs[1]) else FirstError(f, needs, 2);
  }

  lemma OneFault(f: Fields, tag: string)
    requires tag in {"heartbeat", "heartbeatAck", "renew"}
    ensures ErrorOf(Variant(f, tag)) == Attempt(f, Needs(tag)[0]) == FirstError(f, Needs(tag), 0)
  {
    hide StrField, DecodeUint, HelloOf, WelcomeOf, ApplyOf, ObservedOf, EnrollOf, RefusedOf, EnrolledOf, Get;
    assert FirstError(f, Needs(tag), 1) == None;
  }

  lemma VariantFault(f: Fields, tag: string)
    ensures ErrorOf(Variant(f, tag)) == FirstError(f, Needs(tag), 0)
  {
    hide HelloOf, WelcomeOf, ApplyOf, ObservedOf, EnrollOf, EnrolledOf, RefusedOf, Attempt;
    if tag == "hello" { HelloFault(f); }
    else if tag == "welcome" { WelcomeFault(f); }
    else if tag == "enroll" { EnrollFault(f); }
    else if tag == "apply" { ApplyFault(f); }
    else if tag == "observed" { ObservedFault(f); }
    else if tag in {"refused", "enrolled"} { TwoFault(f, tag); }
    else if tag in {"heartbeat", "heartbeatAck", "renew"} { OneFault(f, tag); }
  }

  /** Why a body is refused. */
  ghost predicate Refuses(body: string, e: DecodeError) {
    var trimmed := TrimSpace(body);
    if !Utf8.Valid(body) then e == InvalidUtf8
    else if trimmed == "" || trimmed[0] != '{' then e == NotAnObject
    else if forall f: Fields :: !JsonGrammar.Text(trimmed, Obj(f)) then e == Syntax
    else exists f: Fields :: JsonGrammar.Text(trimmed, Obj(f)) && RefusesMembers(f, e)
  }

  ghost predicate RefusesMembers(f: Fields, e: DecodeError) {
    || Fault(f, NeedText("type"), e)
    || exists tag :: Holds(f, "type", Str(tag)) && FirstFault(f, Needs(tag), e)
  }

  lemma MembersFault(f: Fields, e: DecodeError)
    requires Literals(f)
    ensures RefusesMembers(f, e) <==>
      match Get(f, "type")
      case None => e == MissingField("type")
      case Some(j) => if j.Str? then Variant(f, j.s) == Err(e) else e == InvalidType("type")
  {
    hide Get, Holds, Lacks, Variant, Needs, FirstError, Literals;
    GetIsLast(f, "type");
    if Get(f, "type").Some? && Get(f, "type").value.Str? {
      var tag := Get(f, "type").value.s;
      VariantFault(f, tag);
      FirstErrorIsFirst(f, Needs(tag), 0, e);
    }
  }

  /** A body is refused exactly for the first fault it has, and for that error. */
  lemma DecodeRefuses(body: string, e: DecodeError)
    ensures Decode(body) == Err(e) <==> Refuses(body, e)
  {
    hide Utf8.Valid, TrimSpace, Parse, JsonGrammar.Text, Get, Holds, Variant, NumbersOk, RefusesMembers;
    var trimmed := TrimSpace(body);
    forall j ensures Parse(trimmed) == Some(j) <==> JsonGrammar.Text(trimmed, j) {
      JsonGrammar.ParseIsTheGrammar(trimmed, j);
    }
    if Parse(trimmed).Some? && Parse(trimmed).value.Obj? {
      var f := Parse(trimmed).value.members;
      assert JsonGrammar.Text(trimmed, Obj(f));
      JsonGrammar.NumbersAreLiterals(trimmed, Obj(f));
      ObjectLiterals(f);
      MembersFault(f, e);
    }
  }
}
