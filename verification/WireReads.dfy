/** What the reader of the link takes and what it refuses (packages/api/agentlink/json.go), said of
the members of the body and not of the reader's steps. */
module WireReads {
  import opened Wrappers
  import opened Decimal
  import opened Order
  import opened Protocol
  import opened Json
  import opened JsonRoundTrip
  import JsonGrammar
  import opened Wire
  import opened WireDecode
  import Utf8

  // ---------- Members ----------

  /** The last member of that name has that value. */
  ghost predicate Holds(f: Fields, name: string, j: Json) {
    exists i: nat :: HoldsAt(f, name, j, i)
  }

  predicate HoldsAt(f: Fields, name: string, j: Json, i: nat) {
    i < |f| && f[i] == Member(name, j) && forall k :: i < k < |f| ==> f[k].name != name
  }

  predicate Lacks(f: Fields, name: string) {
    forall k :: 0 <= k < |f| ==> f[k].name != name
  }

  lemma LastDecides(f: Fields, name: string)
    requires f != [] && f[|f| - 1].name == name
    ensures forall j :: Holds(f, name, j) <==> j == f[|f| - 1].value
  {
    assert HoldsAt(f, name, f[|f| - 1].value, |f| - 1);
    forall j | Holds(f, name, j) ensures j == f[|f| - 1].value {
      var i: nat :| HoldsAt(f, name, j, i);
      assert i == |f| - 1;
    }
  }

  lemma OtherLastIsPassed(f: Fields, name: string, j: Json)
    requires f != [] && f[|f| - 1].name != name
    ensures Holds(f, name, j) <==> Holds(f[..|f| - 1], name, j)
  {
    hide HoldsAt;
    if Holds(f, name, j) {
      var i: nat :| HoldsAt(f, name, j, i);
      PassedAt(f, name, j, i);
    }
    if Holds(f[..|f| - 1], name, j) {
      var i: nat :| HoldsAt(f[..|f| - 1], name, j, i);
      PassedAt(f, name, j, i);
    }
  }

  lemma PassedAt(f: Fields, name: string, j: Json, i: nat)
    requires f != [] && f[|f| - 1].name != name
    ensures HoldsAt(f, name, j, i) <==> HoldsAt(f[..|f| - 1], name, j, i)
  {
    var g := f[..|f| - 1];
    assert forall k | 0 <= k < |g| :: g[k] == f[k];
  }

  /** What the reader looks up is the last member of the name. */
  lemma {:induction false} GetIsLast(f: Fields, name: string)
    ensures forall j :: Get(f, name) == Some(j) <==> Holds(f, name, j)
    ensures Get(f, name) == None <==> Lacks(f, name)
  {
    if f == [] {
    } else if f[|f| - 1].name == name {
      LastDecides(f, name);
    } else {
      hide Holds;
      GetIsLast(f[..|f| - 1], name);
      forall j ensures Holds(f, name, j) <==> Holds(f[..|f| - 1], name, j) {
        OtherLastIsPassed(f, name, j);
      }
    }
  }

  // ---------- What a member may hold ----------

  ghost predicate HoldsText(f: Fields, name: string, s: string) {
    Holds(f, name, Str(s))
  }

  ghost predicate HoldsUnsigned(f: Fields, name: string, limit: nat, n: int) {
    0 <= n < limit && Holds(f, name, Num(FormatInt(n)))
  }

  ghost predicate HoldsSigned(f: Fields, name: string, n: int) {
    && -TWO_TO_THE_63 <= n < TWO_TO_THE_63
    && (Holds(f, name, Num(FormatInt(n))) || (n == 0 && Holds(f, name, Num("-0"))))
  }

  ghost predicate HoldsNumbers(f: Fields, name: string, ns: seq<u32>) {
    Holds(f, name, Arr(Numbers(ns)))
  }

  /** A list of texts, in any order and with any repeats; the set is in ascending order. */
  ghost predicate HoldsSet(f: Fields, name: string, features: Features) {
    && Ascending(features)
    && exists ss :: Holds(f, name, Arr(Strings(ss))) && forall y :: y in features <==> y in ss
  }

  ghost predicate HoldsOptional(f: Fields, name: string, s: Option<string>) {
    match s
    case None => Lacks(f, name) || Holds(f, name, Null)
    case Some(t) => Holds(f, name, Str(t))
  }

  /** One of the names, or any other text read as the name for those. */
  ghost predicate HoldsEnum(f: Fields, name: string, known: set<string>, other: string, s: string) {
    || (s in known && Holds(f, name, Str(s)))
    || (s == other && exists t :: t !in known && Holds(f, name, Str(t)))
  }

  // ---------- Which message the members are ----------

  const TAGS := {"hello", "welcome", "refused", "heartbeat", "heartbeatAck", "enroll", "renew", "enrolled", "apply", "observed"}
  const REASONS := {"unsupportedProtocol", "unsupportedCapability", "unknownCluster", "revoked", "badRequest",
                    "invalidToken", "other"}
  const PHASES := {"accepted", "applying", "ready", "failed", "rejected", "unknown"}

  /** The members, whatever others there are, are those of the message m with this tag. */
  ghost predicate Says(f: Fields, tag: string, m: Message) {
    match m
    case Hello(versions, agent, cluster, capabilities, kubernetes) =>
      && tag == "hello"
      && HoldsNumbers(f, "protocolVersions", versions)
      && HoldsText(f, "agentVersion", agent)
      && HoldsText(f, "clusterId", cluster)
      && (HoldsSet(f, "capabilities", capabilities) || (Lacks(f, "capabilities") && capabilities == []))
      && HoldsOptional(f, "kubernetesVersion", kubernetes)
    case Welcome(version, hub, heartbeat, features) =>
      && tag == "welcome"
      && HoldsUnsigned(f, "protocolVersion", TWO_TO_THE_32, version)
      && HoldsText(f, "hubVersion", hub)
      && HoldsUnsigned(f, "heartbeatMs", TWO_TO_THE_64, heartbeat)
      && HoldsSet(f, "features", features)
    case Refused(reason, message) =>
      tag == "refused" && HoldsEnum(f, "reason", REASONS, "other", reason) && HoldsText(f, "message", message)
    case Heartbeat(n) => tag == "heartbeat" && HoldsUnsigned(f, "seq", TWO_TO_THE_64, n)
    case HeartbeatAck(n) => tag == "heartbeatAck" && HoldsUnsigned(f, "seq", TWO_TO_THE_64, n)
    case Enroll(token, cluster, csr) =>
      tag == "enroll" && HoldsText(f, "token", token) && HoldsText(f, "clusterId", cluster) && HoldsText(f, "csr", csr)
    case Renew(csr) => tag == "renew" && HoldsText(f, "csr", csr)
    case Enrolled(certificate, notAfter) =>
      tag == "enrolled" && HoldsText(f, "certificate", certificate) && HoldsSigned(f, "notAfter", notAfter)
    case Apply(target, namespace, name, spec) =>
      && tag == "apply"
      && HoldsText(f, "target", target)
      && HoldsText(f, "namespace", namespace)
      && HoldsText(f, "name", name)
      && HoldsText(f, "spec", spec)
    case Observation(target, generation, phase, reason, message) =>
      && tag == "observed"
      && HoldsText(f, "target", target)
      && HoldsSigned(f, "generation", generation)
      && HoldsEnum(f, "phase", PHASES, "unknown", phase)
      && HoldsOptional(f, "reason", reason)
      && HoldsOptional(f, "message", message)
    case Unknown => tag !in TAGS
  }

  // ---------- Numbers ----------

  /** Digits without a leading zero are how their number is written. */
  lemma {:induction false} FormatOfNumber(s: string)
    requires s != "" && AllDigits(s) && (s[0] == '0' ==> |s| == 1)
    ensures FormatUint(NumberOf(s)) == s
    ensures NumberOf(s) == 0 <==> s == "0"
  {
    var n := |s| - 1;
    var d := s[n] as int - '0' as int;
    if n > 0 {
      FormatOfNumber(s[..n]);
      assert s == s[..n] + [s[n]];
      assert NumberOf(s) / 10 == NumberOf(s[..n]) && NumberOf(s) % 10 == d;
    } else {
      assert s[..0] == "";
      assert s == [s[0]];
    }
  }

  lemma DigitsOfLiteral(raw: string)
    requires IsNumber(raw) && AllDigits(raw)
    ensures raw != "" && (raw[0] == '0' ==> |raw| == 1)
  {
    assert |raw| > 1 ==> IsDigit(raw[1]);
  }

  lemma DigitsOfSigned(raw: string)
    requires IsNumber(raw) && raw[0] == '-' && AllDigits(raw[1..])
    ensures raw != "-" && (raw[1] == '0' ==> raw == "-0")
  {
    assert |raw| > 2 ==> IsDigit(raw[1..][1]);
  }

  /** Of the literals of the grammar, an unsigned number is taken exactly as it is printed. */
  lemma UnsignedLiteral(raw: string, limit: nat, n: nat)
    requires IsNumber(raw)
    ensures ParseUint(raw, limit) == Some(n) <==> n < limit && raw == FormatInt(n)
  {
    ParseUintFormat(n, limit);
    if raw != "" && AllDigits(raw) {
      DigitsOfLiteral(raw);
      FormatOfNumber(raw);
    }
  }

  /** A signed number may also be a zero with a sign. */
  lemma SignedLiteral(raw: string, n: int)
    requires IsNumber(raw)
    ensures ParseInt(raw, TWO_TO_THE_63) == Some(n) <==>
      -TWO_TO_THE_63 <= n < TWO_TO_THE_63 && (raw == FormatInt(n) || (n == 0 && raw == "-0"))
  {
    hide FormatInt, ParseInt, SkipNumber;
    NumberStarts(raw);
    ParseIntFormat(n, TWO_TO_THE_63);
    SignedZero();
    if raw[0] == '-' {
      if ParseInt(raw, TWO_TO_THE_63) == Some(n) {
        NegativeLiteral(raw, n);
      }
    } else if ParseInt(raw, TWO_TO_THE_63) == Some(n) {
      PositiveLiteral(raw, n);
    }
  }

  lemma SignedZero()
    ensures ParseInt("-0", TWO_TO_THE_63) == Some(0)
  {
    assert "-0"[1..] == "0" && NumberOf("0"[..0]) == 0;
  }

  lemma NegativeLiteral(raw: string, n: int)
    requires IsNumber(raw) && raw[0] == '-' && ParseInt(raw, TWO_TO_THE_63) == Some(n)
    ensures raw == FormatInt(n) || (n == 0 && raw == "-0")
  {
    hide SkipNumber, FormatUint, NumberOf, SkipInteger;
    var d := raw[1..];
    assert d != "" && AllDigits(d) && n + NumberOf(d) == 0;
    DigitsOfSigned(raw);
    FormatOfNumber(d);
    assert raw == "-" + d;
    assert d == "0" ==> raw == "-0";
  }

  lemma PositiveLiteral(raw: string, n: int)
    requires IsNumber(raw) && raw[0] != '-' && ParseInt(raw, TWO_TO_THE_63) == Some(n)
    ensures raw == FormatInt(n)
  {
    NumberStarts(raw);
    assert AllDigits(raw) && n == NumberOf(raw);
    DigitsOfLiteral(raw);
    FormatOfNumber(raw);
  }

  /** Number literals of a parsed object are those of the grammar. */
  ghost predicate Literals(f: Fields) {
    forall i :: 0 <= i < |f| ==> NumbersOk(f[i].value)
  }

  lemma HeldLiterals(f: Fields, name: string, j: Json)
    requires Literals(f) && Holds(f, name, j)
    ensures NumbersOk(j)
  {
  }

  // ---------- One field at a time ----------

  lemma StrSays(f: Fields, name: string, s: string)
    ensures StrField(f, name) == Ok(s) <==> HoldsText(f, name, s)
  {
    hide Get, Holds;
    GetIsLast(f, name);
  }

  lemma OptSays(f: Fields, name: string, s: Option<string>)
    ensures OptStrField(f, name) == Ok(s) <==> HoldsOptional(f, name, s)
  {
    hide Get, Holds, Lacks;
    GetIsLast(f, name);
  }

  lemma UintSays(name: string, j: Json, limit: nat, n: nat)
    requires NumbersOk(j)
    ensures DecodeUint(name, j, limit) == Ok(n) <==> n < limit && j == Num(FormatInt(n))
  {
    hide ParseUint, FormatInt, SkipNumber;
    if j.Num? {
      UnsignedLiteral(j.raw, limit, n);
    }
  }

  lemma U32Says(f: Fields, name: string, n: nat)
    requires Literals(f)
    ensures U32Field(f, name) == Ok(n) <==> HoldsUnsigned(f, name, TWO_TO_THE_32, n)
  {
    hide Get, Holds, NumbersOk, DecodeUint, FormatInt;
    GetIsLast(f, name);
    if Get(f, name).Some? {
      HeldLiterals(f, name, Get(f, name).value);
      UintSays(name, Get(f, name).value, TWO_TO_THE_32, n);
    }
  }

  lemma U64Says(f: Fields, name: string, n: nat)
    requires Literals(f)
    ensures U64Field(f, name) == Ok(n) <==> HoldsUnsigned(f, name, TWO_TO_THE_64, n)
  {
    hide Get, Holds, NumbersOk, DecodeUint, FormatInt;
    GetIsLast(f, name);
    if Get(f, name).Some? {
      HeldLiterals(f, name, Get(f, name).value);
      UintSays(name, Get(f, name).value, TWO_TO_THE_64, n);
    }
  }

  lemma I64Says(f: Fields, name: string, n: int)
    requires Literals(f)
    ensures I64Field(f, name) == Ok(n) <==> HoldsSigned(f, name, n)
  {
    hide Get, Holds, ParseInt, FormatInt, SkipNumber;
    GetIsLast(f, name);
    if Get(f, name).Some? && Get(f, name).value.Num? {
      HeldLiterals(f, name, Get(f, name).value);
      SignedLiteral(Get(f, name).value.raw, n);
    }
  }

  lemma {:induction false} U32sSays(name: string, items: seq<Json>, ns: seq<u32>)
    requires forall i :: 0 <= i < |items| ==> NumbersOk(items[i])
    ensures DecodeU32s(name, items) == Ok(ns) <==> items == Numbers(ns)
    decreases |items|
  {
    hide NumbersOk, DecodeUint, FormatInt;
    if items == [] {
      assert items == Numbers(ns) <==> |ns| == 0;
    } else if ns == [] {
    } else {
      var n, m := |items| - 1, |ns| - 1;
      U32sSays(name, items[..n], ns[..m]);
      UintSays(name, items[n], TWO_TO_THE_32, ns[m]);
      NumbersSnoc(items, ns);
      U32sSnoc(name, items, ns);
    }
  }

  lemma NumbersSnoc(items: seq<Json>, ns: seq<u32>)
    requires items != [] && ns != []
    ensures items == Numbers(ns) <==>
      items[..|items| - 1] == Numbers(ns[..|ns| - 1]) && items[|items| - 1] == Num(FormatInt(ns[|ns| - 1]))
  {
    hide FormatInt;
    var n, m := |items| - 1, |ns| - 1;
    assert Numbers(ns) == Numbers(ns[..m]) + [Num(FormatInt(ns[m]))];
    assert items == items[..n] + [items[n]];
  }

  lemma U32sSnoc(name: string, items: seq<Json>, ns: seq<u32>)
    requires items != [] && ns != []
    ensures DecodeU32s(name, items) == Ok(ns) <==>
      && DecodeU32s(name, items[..|items| - 1]) == Ok(ns[..|ns| - 1])
      && DecodeUint(name, items[|items| - 1], TWO_TO_THE_32) == Ok(ns[|ns| - 1])
  {
    hide DecodeUint;
    var m := |ns| - 1;
    assert ns == ns[..m] + [ns[m]];
  }

  lemma NumbersSay(f: Fields, name: string, ns: seq<u32>)
    requires Literals(f)
    ensures U32sField(f, name) == Ok(ns) <==> HoldsNumbers(f, name, ns)
  {
    hide Get, Holds, Numbers, DecodeU32s;
    GetIsLast(f, name);
    if Get(f, name).Some? && Get(f, name).value.Arr? {
      HeldLiterals(f, name, Get(f, name).value);
      U32sSays(name, Get(f, name).value.items, ns);
    }
  }

  lemma {:induction false} StringsSay(name: string, items: seq<Json>, ss: seq<string>)
    ensures DecodeStrings(name, items) == Ok(ss) <==> items == Strings(ss)
    decreases |items|
  {
    if items == [] {
      assert items == Strings(ss) <==> |ss| == 0;
    } else if ss == [] {
    } else {
      var n, m := |items| - 1, |ss| - 1;
      StringsSay(name, items[..n], ss[..m]);
      assert Strings(ss) == Strings(ss[..m]) + [Str(ss[m])];
      assert items == items[..n] + [items[n]];
      assert ss == ss[..m] + [ss[m]];
    }
  }

  lemma FeaturesOf(ss: seq<string>, features: Features)
    ensures NewFeatures(ss) == features <==> Ascending(features) && forall y :: y in features <==> y in ss
  {
    hide NewFeatures, Ascending;
    NewFeaturesIsTheSet(ss);
    if Ascending(features) && forall y :: y in features <==> y in ss {
      AscendingUnique(NewFeatures(ss), features);
    }
  }

  lemma SetSays(f: Fields, name: string, required: bool, features: Features)
    ensures SetField(f, name, required) == Ok(features) <==>
      HoldsSet(f, name, features) || (!required && Lacks(f, name) && features == [])
  {
    hide Get, Holds, Lacks, Strings, DecodeStrings, NewFeatures, Ascending;
    GetIsLast(f, name);
    if Get(f, name).Some? && Get(f, name).value.Arr? {
      var items := Get(f, name).value.items;
      if SetField(f, name, required) == Ok(features) {
        var ss := DecodeStrings(name, items).value;
        StringsSay(name, items, ss);
        FeaturesOf(ss, features);
      }
      if HoldsSet(f, name, features) {
        var ss :| Holds(f, name, Arr(Strings(ss))) && forall y :: y in features <==> y in ss;
        StringsSay(name, items, ss);
        FeaturesOf(ss, features);
      }
    }
  }

  lemma RefusalSays(f: Fields, name: string, r: string)
    ensures (exists s :: StrField(f, name) == Ok(s) && ParseRefusal(s) == r) <==> HoldsEnum(f, name, REASONS, "other", r)
  {
    forall s ensures s in REFUSALS <==> s in REASONS {
      ReasonsAre(s);
    }
    EnumSays(f, name, REFUSALS, REASONS, "other", r);
  }

  lemma PhaseSays(f: Fields, name: string, r: string)
    ensures (exists s :: StrField(f, name) == Ok(s) && ParseRuntimePhase(s) == r) <==> HoldsEnum(f, name, PHASES, "unknown", r)
  {
    forall s ensures s in RUNTIME_PHASES <==> s in PHASES {
      PhasesAre(s);
    }
    EnumSays(f, name, RUNTIME_PHASES, PHASES, "unknown", r);
  }

  lemma ReasonsAre(s: string)
    ensures s in REFUSALS <==> s in REASONS
  {
  }

  lemma PhasesAre(s: string)
    ensures s in RUNTIME_PHASES <==> s in PHASES
  {
  }

  lemma EnumSays(f: Fields, name: string, names: seq<string>, known: set<string>, other: string, r: string)
    requires forall s :: s in names <==> s in known
    ensures (exists s :: StrField(f, name) == Ok(s) && (if s in names then s else other) == r) <==> HoldsEnum(f, name, known, other, r)
  {
    hide StrField, Holds;
    forall s ensures StrField(f, name) == Ok(s) <==> Holds(f, name, Str(s)) {
      StrSays(f, name, s);
    }
  }

  // ---------- One message at a time ----------

  lemma HelloSays(f: Fields, m: Message)
    requires Literals(f)
    ensures HelloOf(f) == Ok(m) <==> Says(f, "hello", m)
  {
    hide U32sField, StrField, SetField, OptStrField, HoldsNumbers, HoldsText, HoldsSet, HoldsOptional, Lacks;
    if m.Hello? {
      NumbersSay(f, "protocolVersions", m.protocolVersions);
      StrSays(f, "agentVersion", m.agentVersion);
      StrSays(f, "clusterId", m.clusterId);
      SetSays(f, "capabilities", false, m.capabilities);
      OptSays(f, "kubernetesVersion", m.kubernetesVersion);
    }
  }

  lemma WelcomeSays(f: Fields, m: Message)
    requires Literals(f)
    ensures WelcomeOf(f) == Ok(m) <==> Says(f, "welcome", m)
  {
    hide U32Field, U64Field, StrField, SetField, HoldsText, HoldsSet, HoldsUnsigned;
    if m.Welcome? {
      U32Says(f, "protocolVersion", m.protocolVersion);
      StrSays(f, "hubVersion", m.hubVersion);
      U64Says(f, "heartbeatMs", m.heartbeatMs);
      SetSays(f, "features", true, m.features);
    }
  }

  lemma RefusedSays(f: Fields, m: Message)
    ensures RefusedOf(f) == Ok(m) <==> Says(f, "refused", m)
  {
    hide StrField, HoldsText, HoldsEnum, ParseRefusal;
    if m.Refused? {
      RefusalSays(f, "reason", m.reason);
      StrSays(f, "message", m.message);
    }
  }

  lemma EnrollSays(f: Fields, m: Message)
    ensures EnrollOf(f) == Ok(m) <==> Says(f, "enroll", m)
  {
    hide StrField, HoldsText;
    if m.Enroll? {
      StrSays(f, "token", m.token);
      StrSays(f, "clusterId", m.clusterId);
      StrSays(f, "csr", m.csr);
    }
  }

  lemma EnrolledSays(f: Fields, m: Message)
    requires Literals(f)
    ensures EnrolledOf(f) == Ok(m) <==> Says(f, "enrolled", m)
  {
    hide StrField, I64Field, HoldsText, HoldsSigned;
    if m.Enrolled? {
      StrSays(f, "certificate", m.certificate);
      I64Says(f, "notAfter", m.notAfter);
    }
  }

  lemma ApplySays(f: Fields, m: Message)
    ensures ApplyOf(f) == Ok(m) <==> Says(f, "apply", m)
  {
    hide StrField, HoldsText;
    if m.Apply? {
      StrSays(f, "target", m.target);
      StrSays(f, "namespace", m.namespace);
      StrSays(f, "name", m.name);
      StrSays(f, "spec", m.spec);
    }
  }

  lemma ObservedSays(f: Fields, m: Message)
    requires Literals(f)
    ensures ObservedOf(f) == Ok(m) <==> Says(f, "observed", m)
  {
    hide StrField, I64Field, OptStrField, HoldsText, HoldsSigned, HoldsEnum, HoldsOptional, ParseRuntimePhase;
    if m.Observation? {
      StrSays(f, "target", m.target);
      I64Says(f, "generation", m.generation);
      PhaseSays(f, "phase", m.phase);
      OptSays(f, "reason", m.reason_);
      OptSays(f, "message", m.message_);
    }
  }

  lemma PlainSays(f: Fields, tag: string, m: Message)
    requires Literals(f) && tag in {"heartbeat", "heartbeatAck", "renew"}
    ensures Variant(f, tag) == Ok(m) <==> Says(f, tag, m)
  {
    hide U64Field, StrField, HoldsUnsigned, HoldsText;
    if m.Heartbeat? || m.HeartbeatAck? {
      U64Says(f, "seq", m.seq_);
    }
    if m.Renew? {
      StrSays(f, "csr", m.csr);
    }
  }

  lemma VariantSays(f: Fields, tag: string, m: Message)
    requires Literals(f)
    ensures Variant(f, tag) == Ok(m) <==> Says(f, tag, m)
  {
    if tag == "hello" { HelloSays(f, m); }
    else if tag == "welcome" { WelcomeSays(f, m); }
    else if tag == "refused" { RefusedSays(f, m); }
    else if tag == "enroll" { EnrollSays(f, m); }
    else if tag == "enrolled" { EnrolledSays(f, m); }
    else if tag == "apply" { ApplySays(f, m); }
    else if tag == "observed" { ObservedSays(f, m); }
    else if tag in {"heartbeat", "heartbeatAck", "renew"} { PlainSays(f, tag, m); }
    else { OtherTagSays(f, tag, m); }
  }

  lemma OtherTagSays(f: Fields, tag: string, m: Message)
    requires tag !in TAGS
    ensures Variant(f, tag) == Ok(m) <==> Says(f, tag, m)
  {
    assert Variant(f, tag) == Ok(Unknown);
    assert Says(f, tag, m) ==> m == Unknown;
  }

  // ---------- Whole bodies ----------

  /** The body, without the space around it, is the text of an object with these members and this tag. */
  ghost predicate Tagged(body: string, f: Fields, tag: string) {
    JsonGrammar.Text(TrimSpace(body), Obj(f)) && Holds(f, "type", Str(tag))
  }

  /** Exactly the bodies whose members say so are decoded, each to the message they say. */
  lemma DecodeSays(body: string, m: Message)
    ensures Decode(body) == Ok(m) <==> Utf8.Valid(body) && exists f, tag :: Tagged(body, f, tag) && Says(f, tag, m)
  {
    hide Utf8.Valid, TrimSpace, Parse, JsonGrammar.Text, Get, Holds, Variant, Says, NumbersOk;
    var trimmed := TrimSpace(body);
    forall j ensures Parse(trimmed) == Some(j) <==> JsonGrammar.Text(trimmed, j) {
      JsonGrammar.ParseIsTheGrammar(trimmed, j);
    }
    if Parse(trimmed).Some? && Parse(trimmed).value.Obj? {
      var f := Parse(trimmed).value.members;
      ObjectBrace(body, f);
      GetIsLast(f, "type");
      JsonGrammar.NumbersAreLiterals(trimmed, Obj(f));
      ObjectLiterals(f);
      if Get(f, "type").Some? && Get(f, "type").value.Str? {
        VariantSays(f, Get(f, "type").value.s, m);
      }
    }
  }

  lemma ObjectLiterals(f: Fields)
    requires NumbersOk(Obj(f))
    ensures Literals(f)
  {
  }

  /** Trimming leaves no JSON space in front. */
  lemma {:induction false} TrimLeftStart(t: string)
    ensures TrimLeft(t) == "" || !IsSpace(TrimLeft(t)[0])
    decreases |t|
  {
    if SpaceAt(t) > 0 {
      TrimLeftStart(t[SpaceAt(t)..]);
    }
  }

  lemma {:induction false} TrimRightStart(t: string)
    ensures TrimRight(t) == "" || (t != "" && TrimRight(t)[0] == t[0])
    decreases |t|
  {
    if SpaceBefore(t) > 0 {
      TrimRightStart(t[..|t| - SpaceBefore(t)]);
    }
  }

  lemma TrimmedStart(body: string)
    ensures TrimSpace(body) == "" || !IsSpace(TrimSpace(body)[0])
  {
    TrimLeftStart(body);
    TrimRightStart(TrimLeft(body));
  }

  lemma ObjectBrace(body: string, f: Fields)
    requires Parse(TrimSpace(body)) == Some(Obj(f))
    ensures TrimSpace(body) != "" && TrimSpace(body)[0] == '{'
  {
    hide TrimSpace, Value;
    TrimmedStart(body);
    ObjectStarts(TrimSpace(body));
  }

  lemma ObjectStarts(t: string)
    requires Value(t).Some? && Value(t).value.0.Obj?
    ensures t[0] == '{'
  {
    hide Members, Items, Literal, SkipNumber, SkipSpace;
  }

  /** A message that this build does not know is no error, whatever its members. */
  lemma UnknownIsTaken(body: string, f: Fields, tag: string)
    requires Utf8.Valid(body) && Tagged(body, f, tag)
    requires forall m: Message :: !m.Unknown? ==> Tag(m) != tag
    ensures Decode(body) == Ok(Unknown)
  {
    hide Utf8.Valid, Tagged, Decode;
    OtherTag(tag);
    DecodeSays(body, Unknown);
  }

  lemma OtherTag(tag: string)
    requires forall m: Message :: !m.Unknown? ==> Tag(m) != tag
    ensures tag !in TAGS
  {
    assert Tag(Hello([], "", "", [], None)) == "hello" && Tag(Welcome(0, "", 0, [])) == "welcome";
    assert Tag(Refused("", "")) == "refused" && Tag(Heartbeat(0)) == "heartbeat" && Tag(HeartbeatAck(0)) == "heartbeatAck";
    assert Tag(Enroll("", "", "")) == "enroll" && Tag(Renew("")) == "renew" && Tag(Enrolled("", 0)) == "enrolled";
    assert Tag(Apply("", "", "", "")) == "apply" && Tag(Observation("", 0, "", None, None)) == "observed";
  }

  // ---------- The space around a body ----------

  /** Unicode's white space. */
  predicate IsWhite(r: Utf8.Rune) {
    || 9 <= r <= 13 || r in {0x20, 0x85, 0xA0, 0x1680} || 0x2000 <= r <= 0x200A
    || r in {0x2028, 0x2029, 0x202F, 0x205F, 0x3000}
  }

  /** White space only. */
  ghost predicate Spaces(t: string)
    decreases |t|
  {
    t == "" || exists r: Utf8.Rune :: IsWhite(r) && Utf8.EncodeRune(r) <= t && Spaces(t[|Utf8.EncodeRune(r)|..])
  }

  lemma WhiteIsSpace(r: Utf8.Rune, t: string)
    requires IsWhite(r) && Utf8.EncodeRune(r) <= t
    ensures SpaceAt(t) == |Utf8.EncodeRune(r)| <= 3
  {
    var e := Utf8.EncodeRune(r);
    assert t[..|e|] == e;
    WhiteAlone(r);
    hide IsWhite, Utf8.EncodeRune;
    assert forall i :: 0 <= i < |e| ==> t[i] == e[i];
  }

  lemma WhiteAlone(r: Utf8.Rune)
    requires IsWhite(r)
    ensures SpaceAt(Utf8.EncodeRune(r)) == |Utf8.EncodeRune(r)| <= 3
  {
    hide Utf8.EncodeRune, SpaceAt;
    if 0x2000 <= r <= 0x200A {
      WhiteRange(r);
    } else if r < 0x800 {
      WhiteSmall(r);
    } else {
      WhiteLarge(r);
    }
  }

  lemma WhiteSmall(r: Utf8.Rune)
    requires 9 <= r <= 13 || r == 0x20 || r == 0x85 || r == 0xA0
    ensures SpaceAt(Utf8.EncodeRune(r)) == |Utf8.EncodeRune(r)| <= 2
  {
  }

  lemma WhiteLarge(r: Utf8.Rune)
    requires r in {0x1680, 0x2028, 0x2029, 0x202F, 0x205F, 0x3000}
    ensures SpaceAt(Utf8.EncodeRune(r)) == |Utf8.EncodeRune(r)| == 3
  {
    var e := Utf8.EncodeRune(r);
    assert e == [(0xE0 + r / 0x1000) as char, (0x80 + r / 0x40 % 0x40) as char, (0x80 + r % 0x40) as char];
    hide Utf8.EncodeRune;
  }

  lemma WhiteRange(r: Utf8.Rune)
    requires 0x2000 <= r <= 0x200A
    ensures SpaceAt(Utf8.EncodeRune(r)) == |Utf8.EncodeRune(r)| == 3
  {
    assert r / 0x1000 == 2 && r / 0x40 == 0x80 && r % 0x40 == r - 0x2000;
  }

  lemma SpaceIsWhite(t: string) returns (r: Utf8.Rune)
    requires SpaceAt(t) > 0
    ensures IsWhite(r) && Utf8.EncodeRune(r) == t[..SpaceAt(t)]
  {
    var n := SpaceAt(t);
    if n == 1 {
      r := t[0] as int;
    } else if n == 2 {
      r := t[1] as int;
      assert t[..2] == [t[0], t[1]];
    } else {
      hide SpaceAt;
      r := ThreeIsWhite(t[0], t[1], t[2]);
      assert t[..3] == [t[0], t[1], t[2]];
    }
  }

  lemma ThreeIsWhite(a: char, b: char, c: char) returns (r: Utf8.Rune)
    requires IsSpace3(a as int, b as int, c as int)
    ensures IsWhite(r) && Utf8.EncodeRune(r) == [a, b, c]
  {
    var x, y, z := a as int - 0xE0, b as int - 0x80, c as int - 0x80;
    r := x * 0x1000 + y * 0x40 + z;
    Utf8.ThreeDigits(x, y, z);
  }

  lemma SpacesFrom(r: Utf8.Rune, rest: string)
    requires IsWhite(r) && Spaces(rest)
    ensures Spaces(Utf8.EncodeRune(r) + rest)
  {
    hide Utf8.EncodeRune, IsWhite;
    var e := Utf8.EncodeRune(r);
    assert (e + rest)[|e|..] == rest;
  }

  lemma FirstSpace(t: string) returns (r: Utf8.Rune)
    requires Spaces(t) && t != ""
    ensures IsWhite(r) && Utf8.EncodeRune(r) <= t && Spaces(t[|Utf8.EncodeRune(r)|..])
  {
    hide Utf8.EncodeRune, IsWhite;
    r :| IsWhite(r) && Utf8.EncodeRune(r) <= t && Spaces(t[|Utf8.EncodeRune(r)|..]);
  }

  lemma {:induction false} SpacesAppend(a: string, b: string)
    requires Spaces(a) && Spaces(b)
    ensures Spaces(a + b)
    decreases |a|
  {
    hide Utf8.EncodeRune, IsWhite, Spaces;
    if a == "" {
      assert a + b == b;
    } else {
      var r := FirstSpace(a);
      var e := Utf8.EncodeRune(r);
      SpacesAppend(a[|e|..], b);
      SpacesFrom(r, a[|e|..] + b);
      assert a + b == e + (a[|e|..] + b);
    }
  }

  lemma OneSpace(t: string)
    requires SpaceAt(t) == |t| > 0
    ensures Spaces(t)
  {
    hide Utf8.EncodeRune, IsWhite;
    var r := SpaceIsWhite(t);
    assert t[..|t|] == t && t[|t|..] == "";
  }

  lemma {:induction false} TrimmedLeft(t: string) returns (a: string)
    ensures t == a + TrimLeft(t) && Spaces(a) && SpaceAt(TrimLeft(t)) == 0
    decreases |t|
  {
    hide Spaces, SpaceAt;
    var n := SpaceAt(t);
    if n > 0 {
      var rest := TrimmedLeft(t[n..]);
      a := t[..n] + rest;
      SpaceAlone(t);
      OneSpace(t[..n]);
      SpacesAppend(t[..n], rest);
      assert t == t[..n] + t[n..];
    } else {
      a := "";
      NoSpaces();
    }
  }

  lemma NoSpaces()
    ensures Spaces("")
  {
  }

  lemma SpaceAlone(t: string)
    requires SpaceAt(t) > 0
    ensures SpaceAt(t[..SpaceAt(t)]) == SpaceAt(t)
  {
  }

  lemma {:induction false} TrimmedRight(t: string) returns (b: string)
    ensures t == TrimRight(t) + b && Spaces(b) && SpaceBefore(TrimRight(t)) == 0
    decreases |t|
  {
    hide Spaces, SpaceBefore, SpaceAt;
    var n := SpaceBefore(t);
    if n > 0 {
      var head, space := t[..|t| - n], t[|t| - n..];
      var rest := TrimmedRight(head);
      b := rest + space;
      SpaceAtEnd(t);
      OneSpace(space);
      SpacesAppend(rest, space);
      assert t == head + space;
    } else {
      b := "";
      NoSpaces();
    }
  }

  lemma SpaceAtEnd(t: string)
    requires SpaceBefore(t) > 0
    ensures SpaceAt(t[|t| - SpaceBefore(t)..]) == SpaceBefore(t)
  {
    hide SpaceAt;
  }

  lemma {:induction false} StillNoSpace(t: string)
    requires SpaceAt(t) == 0
    ensures SpaceAt(TrimRight(t)) == 0
    decreases |t|
  {
    if SpaceBefore(t) > 0 {
      StillNoSpace(t[..|t| - SpaceBefore(t)]);
    }
  }

  lemma WhiteAtEnd(r: Utf8.Rune, t: string)
    requires IsWhite(r) && |Utf8.EncodeRune(r)| <= |t| && t[|t| - |Utf8.EncodeRune(r)|..] == Utf8.EncodeRune(r)
    ensures SpaceBefore(t) > 0
  {
    hide Utf8.EncodeRune, SpaceAt, IsWhite, SpaceBefore;
    WhiteIsSpace(r, Utf8.EncodeRune(r));
    EndsInSpace(t, |Utf8.EncodeRune(r)|);
  }

  lemma EndsInSpace(t: string, n: nat)
    requires 1 <= n <= 3 && n <= |t| && SpaceAt(t[|t| - n..]) == n
    ensures SpaceBefore(t) > 0
  {
    hide SpaceAt;
    if n == 1 {
      assert SpaceAt(t[|t| - 1..]) == 1;
    } else if n == 2 {
      assert SpaceAt(t[|t| - 2..]) == 2;
    } else {
      assert SpaceAt(t[|t| - 3..]) == 3;
    }
  }

  /** Trimming takes white space off both ends, and all of it. */
  lemma TrimSpaceLaw(t: string) returns (a: string, b: string)
    ensures t == a + TrimSpace(t) + b && Spaces(a) && Spaces(b)
    ensures forall r: Utf8.Rune :: IsWhite(r) ==> !(Utf8.EncodeRune(r) <= TrimSpace(t))
    ensures forall r: Utf8.Rune :: IsWhite(r) && |Utf8.EncodeRune(r)| <= |TrimSpace(t)| ==>
      TrimSpace(t)[|TrimSpace(t)| - |Utf8.EncodeRune(r)|..] != Utf8.EncodeRune(r)
  {
    hide Utf8.EncodeRune, SpaceAt, SpaceBefore, TrimLeft, TrimRight, Spaces, IsWhite;
    a := TrimmedLeft(t);
    b := TrimmedRight(TrimLeft(t));
    StillNoSpace(TrimLeft(t));
    var core := TrimSpace(t);
    forall r: Utf8.Rune | IsWhite(r) ensures !(Utf8.EncodeRune(r) <= core) {
      if Utf8.EncodeRune(r) <= core {
        WhiteIsSpace(r, core);
      }
    }
    forall r: Utf8.Rune | IsWhite(r) && |Utf8.EncodeRune(r)| <= |core|
      ensures core[|core| - |Utf8.EncodeRune(r)|..] != Utf8.EncodeRune(r)
    {
      if core[|core| - |Utf8.EncodeRune(r)|..] == Utf8.EncodeRune(r) {
        WhiteAtEnd(r, core);
      }
    }
  }
}
