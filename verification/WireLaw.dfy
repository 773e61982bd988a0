/** The law at the centre of the wire format: encoding and decoding undo each other up to
canonical form, for every message and every accepted body. */
module WireLaw {
  import opened Wrappers
  import opened Decimal
  import opened Protocol
  import opened Json
  import opened JsonRoundTrip
  import opened JsonUtf8
  import opened Wire
  import opened WireDecode
  import Utf8

  /** What a message is once it has been on the wire: sets sorted and without duplicates, a
  reason or a phase this build does not know read as other or unknown. */
  function Canon(m: Message): Message {
    match m
    case Hello(versions, agent, cluster, capabilities, kubernetes) =>
      Hello(versions, agent, cluster, NewFeatures(capabilities), kubernetes)
    case Welcome(version, hub, heartbeat, features) => Welcome(version, hub, heartbeat, NewFeatures(features))
    case Refused(reason, message) => Refused(ParseRefusal(reason), message)
    case Observation(target, generation, phase, reason, message) =>
      Observation(target, generation, ParseRuntimePhase(phase), reason, message)
    case _ => m
  }

  predicate AllValid(ss: seq<string>) {
    forall i :: 0 <= i < |ss| ==> Utf8.Valid(ss[i])
  }

  predicate OptValid(s: Option<string>) {
    s.Some? ==> Utf8.Valid(s.value)
  }

  /** Every string of the message is valid UTF-8. */
  predicate MessageUtf8(m: Message) {
    match m
    case Hello(_, agent, cluster, capabilities, kubernetes) =>
      Utf8.Valid(agent) && Utf8.Valid(cluster) && AllValid(capabilities) && OptValid(kubernetes)
    case Welcome(_, hub, _, features) => Utf8.Valid(hub) && AllValid(features)
    case Refused(reason, message) => Utf8.Valid(reason) && Utf8.Valid(message)
    case Heartbeat(_) => true
    case Enroll(token, cluster, csr) => Utf8.Valid(token) && Utf8.Valid(cluster) && Utf8.Valid(csr)
    case Renew(csr) => Utf8.Valid(csr)
    case Enrolled(certificate, _) => Utf8.Valid(certificate)
    case HeartbeatAck(_) => true
    case Apply(target, namespace, name, spec) =>
      Utf8.Valid(target) && Utf8.Valid(namespace) && Utf8.Valid(name) && Utf8.Valid(spec)
    case Observation(target, _, phase, reason, message) =>
      Utf8.Valid(target) && Utf8.Valid(phase) && OptValid(reason) && OptValid(message)
    case Unknown => true
  }

  // ---------- Looking members up ----------

  lemma {:induction false} GetAppend(a: Fields, b: Fields, name: string)
    ensures Get(a + b, name) == if Get(b, name).Some? then Get(b, name) else Get(a, name)
  {
    if b == [] {
      assert a + b == a;
    } else {
      var n := |b| - 1;
      assert (a + b)[..|a + b| - 1] == a + b[..n];
      GetAppend(a, b[..n], name);
    }
  }

  lemma {:induction false} GetOnly(f: Fields, i: nat)
    requires i < |f| && forall j :: i < j < |f| ==> f[j].name != f[i].name
    ensures Get(f, f[i].name) == Some(f[i].value)
  {
    if i < |f| - 1 {
      GetOnly(f[..|f| - 1], i);
    }
  }

  lemma {:induction false} GetNone(f: Fields, name: string)
    requires forall j :: 0 <= j < |f| ==> f[j].name != name
    ensures Get(f, name) == None
  {
    if f != [] {
      GetNone(f[..|f| - 1], name);
    }
  }

  // ---------- Scalars and lists ----------

  lemma UintReads(name: string, n: nat, limit: nat)
    requires n < limit
    ensures DecodeUint(name, Num(FormatInt(n)), limit) == Ok(n)
  {
    ParseUintFormat(n, limit);
  }

  lemma {:induction false} U32sRead(name: string, vs: seq<u32>)
    ensures DecodeU32s(name, Numbers(vs)) == Ok(vs)
  {
    if vs != [] {
      var n := |vs| - 1;
      hide FormatInt, DecodeUint;
      assert Numbers(vs)[..n] == Numbers(vs[..n]);
      U32sRead(name, vs[..n]);
      UintReads(name, vs[n], TWO_TO_THE_32);
      assert vs == vs[..n] + [vs[n]];
    }
  }

  lemma {:induction false} StringsRead(name: string, ss: seq<string>)
    ensures DecodeStrings(name, Strings(ss)) == Ok(ss)
  {
    if ss != [] {
      var n := |ss| - 1;
      assert Strings(ss)[..n] == Strings(ss[..n]);
      StringsRead(name, ss[..n]);
      assert ss == ss[..n] + [ss[n]];
    }
  }

  /** A set read back is canonical, and canonical sets are read back as they are. */
  lemma SetReads(name: string, features: Features)
    ensures DecodeStrings(name, Strings(NewFeatures(features))) == Ok(NewFeatures(features))
    ensures NewFeatures(NewFeatures(features)) == NewFeatures(features)
  {
    StringsRead(name, NewFeatures(features));
    NewFeaturesIsTheSet(features);
    NewFeaturesCanonical(NewFeatures(features), features);
  }

  // ---------- Variants ----------

  lemma HelloReads(m: Message, f: Fields)
    requires m.Hello? && f == [Text("type", Tag(m))] + Body(m)
    ensures HelloOf(f) == Ok(Canon(m))
  {
    hide FormatInt, FormatUint, Sorted, Compact, DecodeU32s, DecodeStrings, NewFeatures;
    assert "agentVersion"[0] != "capabilities"[0];
    GetOnly(f, 1);
    GetOnly(f, 2);
    GetOnly(f, 3);
    GetOnly(f, 4);
    U32sRead("protocolVersions", m.protocolVersions);
    SetReads("capabilities", m.capabilities);
    if m.kubernetesVersion.Some? {
      GetOnly(f, 5);
    } else {
      GetNone(f, "kubernetesVersion");
    }
  }

  lemma WelcomeReads(m: Message, f: Fields)
    requires m.Welcome? && f == [Text("type", Tag(m))] + Body(m)
    ensures WelcomeOf(f) == Ok(Canon(m))
  {
    hide FormatUint, Sorted, Compact;
    GetOnly(f, 1);
    GetOnly(f, 2);
    GetOnly(f, 3);
    GetOnly(f, 4);
    UintReads("protocolVersion", m.protocolVersion, TWO_TO_THE_32);
    UintReads("heartbeatMs", m.heartbeatMs, TWO_TO_THE_64);
    SetReads("features", m.features);
  }

  lemma OptGet(name: string, v: Option<string>, n: string)
    ensures Get(Optional(name, v), n) == if n == name && v.Some? then Some(Str(v.value)) else None
  {
  }

  lemma ObservationGet(m: Message, f: Fields, n: string)
    requires m.Observation? && f == [Text("type", Tag(m))] + Body(m)
    requires n == "target" || n == "generation" || n == "phase" || n == "reason" || n == "message"
    ensures Get(f, n) == ObservationMember(m, n)
  {
    var fixed := [Text("type", Tag(m)), Text("target", m.target), Number("generation", m.generation), Text("phase", m.phase)];
    var reason := Optional("reason", m.reason_);
    var message := Optional("message", m.message_);
    assert f == fixed + reason + message;
    GetAppend(fixed + reason, message, n);
    GetAppend(fixed, reason, n);
    OptGet("reason", m.reason_, n);
    OptGet("message", m.message_, n);
    ObservationFixed(fixed, n);
  }

  lemma ObservationReads(m: Message, f: Fields)
    requires m.Observation? && f == [Text("type", Tag(m))] + Body(m)
    ensures ObservedOf(f) == Ok(Canon(m))
  {
    ObservationGet(m, f, "target");
    ObservationGet(m, f, "generation");
    ObservationGet(m, f, "phase");
    ObservationGet(m, f, "reason");
    ObservationGet(m, f, "message");
    ParseIntFormat(m.generation, TWO_TO_THE_63);
    assert StrField(f, "target") == Ok(m.target);
    assert I64Field(f, "generation") == Ok(m.generation);
    assert StrField(f, "phase") == Ok(m.phase);
    assert OptStrField(f, "reason") == Ok(m.reason_);
    assert OptStrField(f, "message") == Ok(m.message_);
  }

  function ObservationMember(m: Message, n: string): Option<Json>
    requires m.Observation?
  {
    if n == "target" then Some(Str(m.target))
    else if n == "generation" then Some(Num(FormatInt(m.generation)))
    else if n == "phase" then Some(Str(m.phase))
    else if n == "reason" then (if m.reason_.Some? then Some(Str(m.reason_.value)) else None)
    else (if m.message_.Some? then Some(Str(m.message_.value)) else None)
  }

  lemma ObservationFixed(fixed: Fields, n: string)
    requires |fixed| == 4 && fixed[0].name == "type" && fixed[1].name == "target"
    requires fixed[2].name == "generation" && fixed[3].name == "phase"
    requires n == "target" || n == "generation" || n == "phase" || n == "reason" || n == "message"
    ensures Get(fixed, n) ==
      if n == "target" then Some(fixed[1].value)
      else if n == "generation" then Some(fixed[2].value)
      else if n == "phase" then Some(fixed[3].value)
      else None
  {
    assert "target"[0] != "reason"[0];
    if n == "target" {
      GetOnly(fixed, 1);
    } else if n == "generation" {
      GetOnly(fixed, 2);
    } else if n == "phase" {
      GetOnly(fixed, 3);
    } else {
      GetNone(fixed, n);
    }
  }

  lemma ApplyReads(m: Message, f: Fields)
    requires m.Apply? && f == [Text("type", Tag(m))] + Body(m)
    ensures ApplyOf(f) == Ok(Canon(m))
  {
    assert "name"[0] != "spec"[0];
    GetOnly(f, 1);
    GetOnly(f, 2);
    GetOnly(f, 3);
    GetOnly(f, 4);
  }

  /** The tag is read back, whatever members follow it. */
  lemma TagReads(m: Message)
    ensures Get([Text("type", Tag(m))] + Body(m), "type") == Some(Str(Tag(m)))
  {
    assert "type"[0] != "name"[0] && "type"[0] != "spec"[0];
    var f := [Text("type", Tag(m))] + Body(m);
    forall j | 0 < j < |f| ensures f[j].name != "type" {
      assert f[j] == Body(m)[j - 1];
    }
    GetOnly(f, 0);
  }

  lemma EnrollReads(m: Message, f: Fields)
    requires m.Enroll? && f == [Text("type", Tag(m))] + Body(m)
    ensures EnrollOf(f) == Ok(Canon(m))
  {
    GetOnly(f, 1);
    GetOnly(f, 2);
    GetOnly(f, 3);
  }

  lemma EnrolledReads(m: Message, f: Fields)
    requires m.Enrolled? && f == [Text("type", Tag(m))] + Body(m)
    ensures EnrolledOf(f) == Ok(Canon(m))
  {
    GetOnly(f, 1);
    GetOnly(f, 2);
    ParseIntFormat(m.notAfter, TWO_TO_THE_63);
  }

  lemma RefusedReads(m: Message, f: Fields)
    requires m.Refused? && f == [Text("type", Tag(m))] + Body(m)
    ensures RefusedOf(f) == Ok(Canon(m))
  {
    GetOnly(f, 1);
    GetOnly(f, 2);
  }

  lemma VariantReads(m: Message)
    ensures Variant([Text("type", Tag(m))] + Body(m), Tag(m)) == Ok(Canon(m))
  {
    hide HelloOf, WelcomeOf, RefusedOf, EnrollOf, EnrolledOf, ApplyOf, ObservedOf, FormatUint, NewFeatures;
    var f := [Text("type", Tag(m))] + Body(m);
    match m
    case Hello(_, _, _, _, _) => HelloReads(m, f);
    case Welcome(_, _, _, _) => WelcomeReads(m, f);
    case Refused(_, _) => RefusedReads(m, f);
    case Heartbeat(n) => GetOnly(f, 1); UintReads("seq", n, TWO_TO_THE_64);
    case Enroll(_, _, _) => EnrollReads(m, f);
    case Renew(_) => GetOnly(f, 1);
    case Enrolled(_, _) => EnrolledReads(m, f);
    case HeartbeatAck(n) => GetOnly(f, 1); UintReads("seq", n, TWO_TO_THE_64);
    case Apply(_, _, _, _) => ApplyReads(m, f);
    case Observation(_, _, _, _, _) => ObservationReads(m, f);
    case Unknown =>
  }

  // ---------- The texts ----------

  lemma NumbersAreNumbers(ns: seq<int>)
    ensures forall i :: 0 <= i < |ns| ==> NumbersOk(Numbers(ns)[i])
  {
    forall i | 0 <= i < |ns| ensures NumbersOk(Numbers(ns)[i]) {
      FormatIntIsNumber(ns[i]);
    }
  }

  predicate MembersNumbersOk(f: Fields) {
    forall i :: 0 <= i < |f| ==> NumbersOk(f[i].value)
  }

  lemma BodyNumbersOk(m: Message)
    ensures MembersNumbersOk(Body(m))
  {
    hide FormatInt, IsNumber, NewFeatures;
    match m
    case Hello(_, _, _, _, _) => HelloNumbersOk(m);
    case Welcome(version, _, heartbeat, features) =>
      FormatIntIsNumber(version);
      FormatIntIsNumber(heartbeat);
      StringsHaveNoNumbers(NewFeatures(features));
    case Heartbeat(n) => FormatIntIsNumber(n);
    case HeartbeatAck(n) => FormatIntIsNumber(n);
    case Enrolled(_, n) => FormatIntIsNumber(n);
    case Observation(_, n, _, _, _) => FormatIntIsNumber(n);
    case _ =>
  }

  lemma StringsHaveNoNumbers(ss: seq<string>)
    ensures NumbersOk(Arr(Strings(ss)))
  {
  }

  lemma HelloNumbersOk(m: Message)
    requires m.Hello?
    ensures MembersNumbersOk(Body(m))
  {
    hide FormatInt, IsNumber, NewFeatures;
    NumbersAreNumbers(m.protocolVersions);
    assert NumbersOk(Arr(Numbers(m.protocolVersions)));
    StringsHaveNoNumbers(NewFeatures(m.capabilities));
  }

  lemma WireNumbersOk(m: Message)
    ensures NumbersOk(ToJson(m))
  {
    hide Body;
    BodyNumbersOk(m);
    var ms := [Text("type", Tag(m))] + Body(m);
    forall i | 0 <= i < |ms| ensures NumbersOk(ms[i].value) {
      if i > 0 {
        assert ms[i] == Body(m)[i - 1];
      }
    }
  }

  lemma EncodedShape(m: Message)
    ensures var t := Encoded(m); |t| >= 2 && t[0] == '{' && t[|t| - 1] == '}'
  {
    hide Body, Tag, PrintMembers;
  }

  lemma TrimOfObject(t: string)
    requires |t| >= 2 && t[0] == '{' && t[|t| - 1] == '}'
    ensures TrimSpace(t) == t
  {
    assert SpaceAt(t) == 0;
    NoSpaceBefore(t);
  }

  /** No space ends in a closing brace. */
  lemma BraceIsNoSpace(t: string, k: nat)
    requires 1 <= k <= |t| && k <= 3 && t[|t| - 1] == '}'
    ensures SpaceAt(t[|t| - k..]) != k
  {
    var u := t[|t| - k..];
    assert |u| == k && u[k - 1] == '}';
  }

  lemma NoSpaceBefore(t: string)
    requires t != "" && t[|t| - 1] == '}'
    ensures SpaceBefore(t) == 0
  {
    hide SpaceAt;
    BraceIsNoSpace(t, 1);
    if |t| >= 2 {
      BraceIsNoSpace(t, 2);
    }
    if |t| >= 3 {
      BraceIsNoSpace(t, 3);
    }
  }

  lemma SetUtf8(features: Features)
    ensures StringsValid(Arr(Strings(NewFeatures(features)))) <==> AllValid(features)
  {
    var set_ := NewFeatures(features);
    NewFeaturesIsTheSet(features);
    if AllValid(features) {
      forall i | 0 <= i < |set_| ensures Utf8.Valid(set_[i]) {
        assert set_[i] in features;
      }
    } else {
      var i :| 0 <= i < |features| && !Utf8.Valid(features[i]);
      assert features[i] in set_;
      var k :| 0 <= k < |set_| && set_[k] == features[i];
      assert !StringsValid(Strings(set_)[k]);
    }
  }

  lemma NumbersUtf8(ns: seq<int>)
    ensures StringsValid(Arr(Numbers(ns)))
  {
  }

  lemma OptionalUtf8(name: string, v: Option<string>)
    requires Utf8.Ascii(name)
    ensures MembersValid(Optional(name, v)) <==> OptValid(v)
  {
    Utf8.RunAscii(name);
    if v.Some? {
      assert Optional(name, v)[0] == Text(name, v.value);
    }
  }

  lemma MembersValidAppend(a: Fields, b: Fields)
    ensures MembersValid(a + b) <==> MembersValid(a) && MembersValid(b)
  {
    if MembersValid(a + b) {
      forall i | 0 <= i < |a| ensures MemberValid(a[i]) {
        assert (a + b)[i] == a[i];
      }
      forall i | 0 <= i < |b| ensures MemberValid(b[i]) {
        assert (a + b)[|a| + i] == b[i];
      }
    }
  }

  lemma FourValid(a: Member, b: Member, c: Member, d: Member)
    ensures MembersValid([a, b, c, d]) <==> MemberValid(a) && MemberValid(b) && MemberValid(c) && MemberValid(d)
  {
    var ms := [a, b, c, d];
    assert ms[0] == a && ms[1] == b && ms[2] == c && ms[3] == d;
  }

  lemma ThreeValid(a: Member, b: Member, c: Member)
    ensures MembersValid([a, b, c]) <==> MemberValid(a) && MemberValid(b) && MemberValid(c)
  {
    var ms := [a, b, c];
    assert ms[0] == a && ms[1] == b && ms[2] == c;
  }

  lemma TwoValid(a: Member, b: Member)
    ensures MembersValid([a, b]) <==> MemberValid(a) && MemberValid(b)
  {
    var ms := [a, b];
    assert ms[0] == a && ms[1] == b;
  }

  lemma OneValid(a: Member)
    ensures MembersValid([a]) <==> MemberValid(a)
  {
    assert [a][0] == a;
  }

  lemma NamedValid(name: string, value: Json)
    requires Utf8.Ascii(name)
    ensures MemberValid(Member(name, value)) <==> StringsValid(value)
  {
    Utf8.RunAscii(name);
  }

  lemma NumberValid(name: string, n: int)
    requires Utf8.Ascii(name)
    ensures MemberValid(Number(name, n))
  {
    Utf8.RunAscii(name);
  }

  lemma HelloFixed(versions: Json, agent: string, cluster: string, capabilities: Json)
    ensures MembersValid([Member("protocolVersions", versions), Text("agentVersion", agent),
                          Text("clusterId", cluster), Member("capabilities", capabilities)])
      <==> StringsValid(versions) && Utf8.Valid(agent) && Utf8.Valid(cluster) && StringsValid(capabilities)
  {
    hide Utf8.Run, Utf8.Valid, MembersValid, MemberValid;
    assert StringsValid(Str(agent)) == Utf8.Valid(agent) && StringsValid(Str(cluster)) == Utf8.Valid(cluster);
    hide StringsValid;
    NamedValid("protocolVersions", versions);
    NamedValid("agentVersion", Str(agent));
    NamedValid("clusterId", Str(cluster));
    NamedValid("capabilities", capabilities);
    FourValid(Member("protocolVersions", versions), Text("agentVersion", agent),
              Text("clusterId", cluster), Member("capabilities", capabilities));
  }

  lemma HelloUtf8(m: Message)
    requires m.Hello?
    ensures MembersValid(Body(m)) <==> MessageUtf8(m)
  {
    hide Utf8.Run, Utf8.Valid;
    var versions, capabilities := Arr(Numbers(m.protocolVersions)), Arr(Strings(NewFeatures(m.capabilities)));
    var fixed := [Member("protocolVersions", versions), Text("agentVersion", m.agentVersion),
                  Text("clusterId", m.clusterId), Member("capabilities", capabilities)];
    HelloFixed(versions, m.agentVersion, m.clusterId, capabilities);
    assert Body(m) == fixed + Optional("kubernetesVersion", m.kubernetesVersion);
    MembersValidAppend(fixed, Optional("kubernetesVersion", m.kubernetesVersion));
    NumbersUtf8(m.protocolVersions);
    SetUtf8(m.capabilities);
    OptionalUtf8("kubernetesVersion", m.kubernetesVersion);
  }

  lemma WelcomeFixed(version: int, hub: string, heartbeat: int, features: Json)
    ensures MembersValid([Number("protocolVersion", version), Text("hubVersion", hub),
                          Number("heartbeatMs", heartbeat), Member("features", features)])
      <==> Utf8.Valid(hub) && StringsValid(features)
  {
    hide Utf8.Run, Utf8.Valid, FormatInt, FormatUint;
    NumberValid("protocolVersion", version);
    NamedValid("hubVersion", Str(hub));
    NumberValid("heartbeatMs", heartbeat);
    NamedValid("features", features);
    FourValid(Number("protocolVersion", version), Text("hubVersion", hub),
              Number("heartbeatMs", heartbeat), Member("features", features));
  }

  lemma WelcomeUtf8(m: Message)
    requires m.Welcome?
    ensures MembersValid(Body(m)) <==> MessageUtf8(m)
  {
    hide Utf8.Run, Utf8.Valid;
    WelcomeFixed(m.protocolVersion, m.hubVersion, m.heartbeatMs, Arr(Strings(NewFeatures(m.features))));
    SetUtf8(m.features);
  }

  lemma ObservationFixedUtf8(target: string, generation: int, phase: string)
    ensures MembersValid([Text("target", target), Number("generation", generation), Text("phase", phase)])
      <==> Utf8.Valid(target) && Utf8.Valid(phase)
  {
    hide Utf8.Run, Utf8.Valid;
    NamedValid("target", Str(target));
    NumberValid("generation", generation);
    NamedValid("phase", Str(phase));
    ThreeValid(Text("target", target), Number("generation", generation), Text("phase", phase));
  }

  lemma ObservationUtf8(m: Message)
    requires m.Observation?
    ensures MembersValid(Body(m)) <==> MessageUtf8(m)
  {
    hide Utf8.Run, Utf8.Valid;
    var fixed := [Text("target", m.target), Number("generation", m.generation), Text("phase", m.phase)];
    var reason, message := Optional("reason", m.reason_), Optional("message", m.message_);
    ObservationFixedUtf8(m.target, m.generation, m.phase);
    OptionalUtf8("reason", m.reason_);
    OptionalUtf8("message", m.message_);
    MembersValidAppend(fixed, reason);
    MembersValidAppend(fixed + reason, message);
  }

  lemma ApplyUtf8(m: Message)
    requires m.Apply?
    ensures MembersValid(Body(m)) <==> MessageUtf8(m)
  {
    hide Utf8.Run, Utf8.Valid;
    NamedValid("target", Str(m.target));
    NamedValid("namespace", Str(m.namespace));
    NamedValid("name", Str(m.name));
    NamedValid("spec", Str(m.spec));
    FourValid(Text("target", m.target), Text("namespace", m.namespace), Text("name", m.name), Text("spec", m.spec));
  }

  lemma EnrollUtf8(m: Message)
    requires m.Enroll?
    ensures MembersValid(Body(m)) <==> MessageUtf8(m)
  {
    hide Utf8.Run, Utf8.Valid;
    NamedValid("token", Str(m.token));
    NamedValid("clusterId", Str(m.clusterId));
    NamedValid("csr", Str(m.csr));
    ThreeValid(Text("token", m.token), Text("clusterId", m.clusterId), Text("csr", m.csr));
  }

  lemma RefusedUtf8(m: Message)
    requires m.Refused?
    ensures MembersValid(Body(m)) <==> MessageUtf8(m)
  {
    hide Utf8.Run, Utf8.Valid;
    NamedValid("reason", Str(m.reason));
    NamedValid("message", Str(m.message));
    TwoValid(Text("reason", m.reason), Text("message", m.message));
  }

  lemma HeartbeatUtf8(m: Message)
    requires m.Heartbeat? || m.HeartbeatAck?
    ensures MembersValid(Body(m)) <==> MessageUtf8(m)
  {
    hide Utf8.Run, Utf8.Valid;
    NumberValid("seq", m.seq_);
    OneValid(Number("seq", m.seq_));
  }

  lemma RenewUtf8(m: Message)
    requires m.Renew?
    ensures MembersValid(Body(m)) <==> MessageUtf8(m)
  {
    hide Utf8.Run, Utf8.Valid;
    NamedValid("csr", Str(m.csr));
    OneValid(Text("csr", m.csr));
  }

  lemma EnrolledUtf8(m: Message)
    requires m.Enrolled?
    ensures MembersValid(Body(m)) <==> MessageUtf8(m)
  {
    hide Utf8.Run, Utf8.Valid;
    NamedValid("certificate", Str(m.certificate));
    NumberValid("notAfter", m.notAfter);
    TwoValid(Text("certificate", m.certificate), Number("notAfter", m.notAfter));
  }

  lemma BodyUtf8(m: Message)
    ensures MembersValid(Body(m)) <==> MessageUtf8(m)
  {
    hide Utf8.Run, Utf8.Valid;
    match m
    case Hello(_, _, _, _, _) => HelloUtf8(m);
    case Welcome(_, _, _, _) => WelcomeUtf8(m);
    case Observation(_, _, _, _, _) => ObservationUtf8(m);
    case Apply(_, _, _, _) => ApplyUtf8(m);
    case Enroll(_, _, _) => EnrollUtf8(m);
    case Refused(_, _) => RefusedUtf8(m);
    case Heartbeat(_) => HeartbeatUtf8(m);
    case HeartbeatAck(_) => HeartbeatUtf8(m);
    case Renew(_) => RenewUtf8(m);
    case Enrolled(_, _) => EnrolledUtf8(m);
    case Unknown =>
  }

  lemma AsciiValid(s: string)
    requires Utf8.Ascii(s)
    ensures Utf8.Valid(s)
  {
    Utf8.RunAscii(s);
  }

  lemma TagUtf8(m: Message)
    ensures MembersValid([Text("type", Tag(m))])
  {
    hide Utf8.Run, Utf8.Valid;
    AsciiValid("type");
    assert Utf8.Ascii(Tag(m));
    AsciiValid(Tag(m));
    OneValid(Text("type", Tag(m)));
  }

  /** The text of a message is valid UTF-8 exactly when the message's strings are. */
  lemma EncodedUtf8(m: Message)
    ensures Utf8.Valid(Encoded(m)) <==> MessageUtf8(m)
  {
    hide Utf8.Run;
    WireNumbersOk(m);
    RunPrint(ToJson(m));
    BodyUtf8(m);
    TagUtf8(m);
    MembersValidAppend([Text("type", Tag(m))], Body(m));
    ObjectUtf8([Text("type", Tag(m))] + Body(m));
  }

  lemma ObjectUtf8(ms: seq<Member>)
    ensures StringsValid(Obj(ms)) <==> MembersValid(ms)
  {
    if MembersValid(ms) {
      forall i | 0 <= i < |ms| ensures Utf8.Valid(ms[i].name) && StringsValid(ms[i].value) {
        assert MemberValid(ms[i]);
      }
    }
  }

  /** The law: what was encoded is decoded to the same message in canonical form, exactly when
  every string is valid UTF-8; otherwise it is refused as invalid UTF-8. */
  lemma DecodeOfEncode(m: Message)
    ensures Decode(Encoded(m)) == if MessageUtf8(m) then Ok(Canon(m)) else Err(InvalidUtf8)
  {
    hide Body, Tag, Variant, Parse, Print, Utf8.Run, Utf8.Valid, TrimSpace, NumbersOk;
    EncodedUtf8(m);
    WireNumbersOk(m);
    EncodedShape(m);
    TrimOfObject(Encoded(m));
    ParseOfPrint(ToJson(m));
    TagReads(m);
    VariantReads(m);
  }

  /** Two messages with the same bytes are the same message in canonical form. */
  lemma EncodedInjective(m: Message, n: Message)
    requires Encoded(m) == Encoded(n)
    ensures Canon(m) == Canon(n)
  {
    WireNumbersOk(m);
    WireNumbersOk(n);
    ParseOfPrint(ToJson(m));
    ParseOfPrint(ToJson(n));
    TagReads(m);
    TagReads(n);
    VariantReads(m);
    VariantReads(n);
  }

  // ---------- Every accepted body ----------

  lemma GetUtf8(f: Fields, name: string)
    requires MembersValid(f)
    ensures Get(f, name).Some? ==> StringsValid(Get(f, name).value)
  {
    if f != [] && f[|f| - 1].name == name {
      assert MemberValid(f[|f| - 1]);
    } else if f != [] {
      GetUtf8(f[..|f| - 1], name);
    }
  }

  lemma {:induction false} DecodeStringsUtf8(name: string, items: seq<Json>)
    requires ItemsValid(items) && DecodeStrings(name, items).Ok?
    ensures AllValid(DecodeStrings(name, items).value)
  {
    if items != [] {
      DecodeStringsUtf8(name, items[..|items| - 1]);
    }
  }

  lemma SetFieldUtf8(f: Fields, name: string, required: bool)
    requires MembersValid(f) && SetField(f, name, required).Ok?
    ensures var r := SetField(f, name, required).value;
      AllValid(r) && NewFeatures(r) == r
  {
    GetUtf8(f, name);
    if Get(f, name).Some? {
      var items := Get(f, name).value.items;
      DecodeStringsUtf8(name, items);
      var names := DecodeStrings(name, items).value;
      SetReads(name, names);
      SetUtf8(names);
      NewFeaturesIsTheSet(names);
      forall i | 0 <= i < |NewFeatures(names)| ensures Utf8.Valid(NewFeatures(names)[i]) {
        assert NewFeatures(names)[i] in names;
      }
    }
  }

  lemma ParsedEnumsStay(s: string)
    ensures ParseRefusal(ParseRefusal(s)) == ParseRefusal(s)
    ensures ParseRuntimePhase(ParseRuntimePhase(s)) == ParseRuntimePhase(s)
    ensures Utf8.Valid(s) ==> Utf8.Valid(ParseRefusal(s)) && Utf8.Valid(ParseRuntimePhase(s))
  {
    assert REFUSALS[6] == "other" && RUNTIME_PHASES[5] == "unknown";
    Utf8.RunAscii("other");
    Utf8.RunAscii("unknown");
  }

  predicate Canonical(m: Message) {
    MessageUtf8(m) && Canon(m) == m
  }

  lemma StrFieldUtf8(f: Fields, name: string)
    requires MembersValid(f)
    ensures StrField(f, name).Ok? ==> Utf8.Valid(StrField(f, name).value)
    ensures OptStrField(f, name).Ok? ==> OptValid(OptStrField(f, name).value)
  {
    GetUtf8(f, name);
  }

  lemma HelloCanonical(f: Fields)
    requires MembersValid(f) && HelloOf(f).Ok?
    ensures Canonical(HelloOf(f).value)
  {
    StrFieldUtf8(f, "agentVersion");
    StrFieldUtf8(f, "clusterId");
    StrFieldUtf8(f, "kubernetesVersion");
    SetFieldUtf8(f, "capabilities", false);
  }

  lemma WelcomeCanonical(f: Fields)
    requires MembersValid(f) && WelcomeOf(f).Ok?
    ensures Canonical(WelcomeOf(f).value)
  {
    StrFieldUtf8(f, "hubVersion");
    SetFieldUtf8(f, "features", true);
  }

  lemma RefusedCanonical(f: Fields)
    requires MembersValid(f) && RefusedOf(f).Ok?
    ensures Canonical(RefusedOf(f).value)
  {
    StrFieldUtf8(f, "reason");
    StrFieldUtf8(f, "message");
    ParsedEnumsStay(StrField(f, "reason").value);
  }

  lemma ObservedCanonical(f: Fields)
    requires MembersValid(f) && ObservedOf(f).Ok?
    ensures Canonical(ObservedOf(f).value)
  {
    StrFieldUtf8(f, "target");
    StrFieldUtf8(f, "phase");
    StrFieldUtf8(f, "reason");
    StrFieldUtf8(f, "message");
    ParsedEnumsStay(StrField(f, "phase").value);
  }

  lemma PlainCanonical(f: Fields)
    requires MembersValid(f)
    ensures EnrollOf(f).Ok? ==> Canonical(EnrollOf(f).value)
    ensures EnrolledOf(f).Ok? ==> Canonical(EnrolledOf(f).value)
    ensures ApplyOf(f).Ok? ==> Canonical(ApplyOf(f).value)
  {
    StrFieldUtf8(f, "token");
    StrFieldUtf8(f, "clusterId");
    StrFieldUtf8(f, "csr");
    StrFieldUtf8(f, "certificate");
    StrFieldUtf8(f, "target");
    StrFieldUtf8(f, "namespace");
    StrFieldUtf8(f, "name");
    StrFieldUtf8(f, "spec");
  }

  lemma VariantCanonical(f: Fields, tag: string)
    requires MembersValid(f) && Variant(f, tag).Ok?
    ensures Canonical(Variant(f, tag).value)
  {
    hide HelloOf, WelcomeOf, RefusedOf, ObservedOf, EnrollOf, EnrolledOf, ApplyOf, StrField, U64Field, Utf8.Run;
    if tag == "hello" {
      HelloCanonical(f);
    } else if tag == "welcome" {
      WelcomeCanonical(f);
    } else if tag == "refused" {
      RefusedCanonical(f);
    } else if tag == "observed" {
      ObservedCanonical(f);
    } else {
      PlainCanonical(f);
      StrFieldUtf8(f, "csr");
    }
  }

  lemma {:induction false} TrimLeftUtf8(t: string)
    requires Utf8.Valid(t)
    ensures Utf8.Valid(TrimLeft(t))
    decreases |t|
  {
    var n := SpaceAt(t);
    if n > 0 {
      assert t == t[..n] + t[n..];
      Utf8.RunAppend(Utf8.Start, t[..n], t[n..]);
      SpaceIsWhole(t);
      TrimLeftUtf8(t[n..]);
    }
  }

  lemma SpaceIsWhole(t: string)
    requires SpaceAt(t) > 0
    ensures Utf8.Valid(t[..SpaceAt(t)])
  {
    var n := SpaceAt(t);
    if n == 1 {
      Utf8.RunAscii(t[..1]);
    } else if n == 2 {
      assert t[..2] == Utf8.Bytes2(t[0] as int, t[1] as int);
    } else {
      assert t[..3] == Utf8.Bytes3(t[0] as int, t[1] as int, t[2] as int);
    }
  }

  lemma {:induction false} TrimRightUtf8(t: string)
    requires Utf8.Valid(t)
    ensures Utf8.Valid(TrimRight(t))
    decreases |t|
  {
    var n := SpaceBefore(t);
    if n > 0 {
      var head, space := t[..|t| - n], t[|t| - n..];
      assert t == head + space;
      Utf8.RunAppend(Utf8.Start, head, space);
      SpaceStarts(Utf8.Run(Utf8.Start, head), space);
      TrimRightUtf8(head);
    }
  }

  /** A space can only be read between two characters. */
  lemma SpaceStarts(q: Utf8.State, space: string)
    requires space != "" && SpaceAt(space) == |space| && Utf8.Run(q, space) == Utf8.Start
    ensures q == Utf8.Start
  {
    Utf8.RunBad(space[1..]);
  }

  /** Whatever body is accepted, the message is canonical and has valid strings only; so it
  is a fixed point: encoding it and decoding again gives the same message. */
  lemma DecodedIsCanonical(body: string)
    requires Decode(body).Ok?
    ensures var m := Decode(body).value; MessageUtf8(m) && Canon(m) == m && Decode(Encoded(m)) == Ok(m)
  {
    TrimLeftUtf8(body);
    TrimRightUtf8(TrimLeft(body));
    var trimmed := TrimSpace(body);
    ParseKeepsUtf8(trimmed);
    var f := Parse(trimmed).value.members;
    ObjectUtf8(f);
    VariantCanonical(f, Get(f, "type").value.s);
    DecodeOfEncode(Decode(body).value);
  }

  /** Negotiating on a Hello after the wire gives the same result as on the Hello before it. */
  lemma NegotiationAcrossTheWire(hello: Message, versions: Versions, features: Features)
    requires hello.Hello? && MessageUtf8(hello)
    ensures Decode(Encoded(hello)).Ok? && Decode(Encoded(hello)).value.Hello?
    ensures var received := Decode(Encoded(hello)).value;
      Negotiation(versions, features, received.protocolVersions, received.capabilities)
      == Negotiation(versions, features, hello.protocolVersions, hello.capabilities)
  {
    DecodeOfEncode(hello);
    NewFeaturesIsTheSet(hello.capabilities);
    NegotiationIgnoresForm(versions, features, hello.protocolVersions, NewFeatures(hello.capabilities),
                           hello.protocolVersions, hello.capabilities);
  }

  /** The bytes of a Hello do not depend on the order or the repeats of its capabilities. */
  lemma HelloBytesIgnoreForm(a: Message, b: Message)
    requires a.Hello? && b.Hello? && b == a.(capabilities := b.capabilities)
    requires forall f :: f in a.capabilities <==> f in b.capabilities
    ensures Encoded(a) == Encoded(b)
  {
    NewFeaturesCanonical(a.capabilities, b.capabilities);
  }

  // ---------- What is written, and in which order ----------

  function NamesOf(f: Fields): (names: seq<string>)
    ensures |names| == |f| && forall i :: 0 <= i < |f| ==> names[i] == f[i].name
  {
    seq(|f|, i requires 0 <= i < |f| => f[i].name)
  }

  function IfThere(name: string, s: Option<string>): seq<string> {
    if s.Some? then [name] else []
  }

  /** The members of a message, in the order of the Rust type. */
  function MemberOrder(m: Message): seq<string> {
    match m
    case Hello(_, _, _, _, kubernetes) =>
      ["type", "protocolVersions", "agentVersion", "clusterId", "capabilities"] + IfThere("kubernetesVersion", kubernetes)
    case Welcome(_, _, _, _) => ["type", "protocolVersion", "hubVersion", "heartbeatMs", "features"]
    case Refused(_, _) => ["type", "reason", "message"]
    case Heartbeat(_) => ["type", "seq"]
    case HeartbeatAck(_) => ["type", "seq"]
    case Enroll(_, _, _) => ["type", "token", "clusterId", "csr"]
    case Renew(_) => ["type", "csr"]
    case Enrolled(_, _) => ["type", "certificate", "notAfter"]
    case Apply(_, _, _, _) => ["type", "target", "namespace", "name", "spec"]
    case Observation(_, _, _, reason, message) =>
      ["type", "target", "generation", "phase"] + IfThere("reason", reason) + IfThere("message", message)
    case Unknown => ["type"]
  }

  /** The bytes are those of an object with exactly these members, in this order. */
  lemma WrittenInOrder(m: Message)
    ensures Parse(Encoded(m)) == Some(ToJson(m)) && NamesOf(ToJson(m).members) == MemberOrder(m)
  {
    WireNumbersOk(m);
    ParseOfPrint(ToJson(m));
    OrderOf(m);
  }

  lemma OrderOf(m: Message)
    ensures NamesOf(ToJson(m).members) == MemberOrder(m)
  {
    hide FormatInt, NewFeatures, Numbers, Strings, NamesOf;
    if m.Hello? {
      OrderOfHello(m);
    } else if m.Observation? {
      OrderOfObservation(m);
    } else {
      OrderOfFixed(m);
    }
  }

  lemma OrderOfHello(m: Message)
    requires m.Hello?
    ensures NamesOf(ToJson(m).members) == MemberOrder(m)
  {
    hide FormatInt, NewFeatures, Numbers, Strings;
  }

  lemma OrderOfObservation(m: Message)
    requires m.Observation?
    ensures NamesOf(ToJson(m).members) == MemberOrder(m)
  {
    hide FormatInt, NewFeatures, Numbers, Strings;
  }

  lemma OrderOfFixed(m: Message)
    requires !m.Hello? && !m.Observation?
    ensures NamesOf(ToJson(m).members) == MemberOrder(m)
  {
    hide FormatInt, NewFeatures, Numbers, Strings, IfThere;
  }
}
