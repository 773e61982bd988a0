/** The messages' JSON (packages/api/agentlink/json.go): its form, and the encoder that writes it
into a buffer. */
module Wire {
  import opened Wrappers
  import opened Decimal
  import opened Protocol
  import opened Json

  // ---------- The wire form of a message ----------

  function Text(name: string, value: string): Member {
    Member(name, Str(value))
  }

  function Number(name: string, n: int): Member {
    Member(name, Num(FormatInt(n)))
  }

  function Optional(name: string, value: Option<string>): seq<Member> {
    if value.Some? then [Text(name, value.value)] else []
  }

  function Numbers(ns: seq<int>): (js: seq<Json>)
    ensures |js| == |ns| && forall i :: 0 <= i < |ns| ==> js[i] == Num(FormatInt(ns[i]))
  {
    seq(|ns|, i requires 0 <= i < |ns| => Num(FormatInt(ns[i])))
  }

  function Strings(ss: seq<string>): (js: seq<Json>)
    ensures |js| == |ss| && forall i :: 0 <= i < |ss| ==> js[i] == Str(ss[i])
  {
    seq(|ss|, i requires 0 <= i < |ss| => Str(ss[i]))
  }

  function Tag(m: Message): string {
    match m
    case Hello(_, _, _, _, _) => "hello"
    case Welcome(_, _, _, _) => "welcome"
    case Refused(_, _) => "refused"
    case Heartbeat(_) => "heartbeat"
    case Enroll(_, _, _) => "enroll"
    case Renew(_) => "renew"
    case Enrolled(_, _) => "enrolled"
    case HeartbeatAck(_) => "heartbeatAck"
    case Apply(_, _, _, _) => "apply"
    case Observation(_, _, _, _, _) => "observed"
    case Unknown => "unknown"
  }

  /** The members after the tag, in the order they are written. */
  function Body(m: Message): seq<Member> {
    match m
    case Hello(versions, agent, cluster, capabilities, kubernetes) =>
      [Member("protocolVersions", Arr(Numbers(versions))), Text("agentVersion", agent), Text("clusterId", cluster),
       Member("capabilities", Arr(Strings(NewFeatures(capabilities))))] + Optional("kubernetesVersion", kubernetes)
    case Welcome(version, hub, heartbeat, features) =>
      [Number("protocolVersion", version), Text("hubVersion", hub), Number("heartbeatMs", heartbeat),
       Member("features", Arr(Strings(NewFeatures(features))))]
    case Refused(reason, message) => [Text("reason", reason), Text("message", message)]
    case Heartbeat(n) => [Number("seq", n)]
    case Enroll(token, cluster, csr) => [Text("token", token), Text("clusterId", cluster), Text("csr", csr)]
    case Renew(csr) => [Text("csr", csr)]
    case Enrolled(certificate, notAfter) => [Text("certificate", certificate), Number("notAfter", notAfter)]
    case HeartbeatAck(n) => [Number("seq", n)]
    case Apply(target, namespace, name, spec) =>
      [Text("target", target), Text("namespace", namespace), Text("name", name), Text("spec", spec)]
    case Observation(target, generation, phase, reason, message) =>
      [Text("target", target), Number("generation", generation), Text("phase", phase)]
      + Optional("reason", reason) + Optional("message", message)
    case Unknown => []
  }

  function ToJson(m: Message): Json {
    Obj([Text("type", Tag(m))] + Body(m))
  }

  /** The bytes of a message on the wire. */
  function Encoded(m: Message): string {
    Print(ToJson(m))
  }

  // ---------- The encoder ----------

  lemma {:induction false} MoreMembersAppend(a: seq<Member>, b: seq<Member>)
    ensures MoreMembers(a + b) == MoreMembers(a) + MoreMembers(b)
  {
    if a == [] {
      assert a + b == b;
    } else {
      assert (a + b)[1..] == a[1..] + b;
      MoreMembersAppend(a[1..], b);
      Regroup3(",", PrintMember(a[0]), MoreMembers(a[1..]), MoreMembers(b));
    }
  }

  lemma Regroup2(a: string, b: string, c: string)
    ensures a + (b + c) == a + b + c
  {
  }

  lemma Regroup3(a: string, b: string, c: string, d: string)
    ensures a + b + (c + d) == (a + b + c) + d
    ensures a + b + (c + d) == a + (b + c + d)
  {
  }

  lemma Regroup5(a: string, b: string, c: string, d: string)
    ensures a + (b + c + d) == a + b + c + d
  {
  }

  lemma Regroup4(a: string, b: string, c: string, d: string, e: string)
    ensures a + b + c + d + e == a + (b + (c + d) + e)
  {
  }

  lemma {:induction false} EscapeAllAppend(a: string, b: string)
    ensures EscapeAll(a + b) == EscapeAll(a) + EscapeAll(b)
  {
    hide Escaped;
    if a == "" {
      assert a + b == b;
    } else {
      assert (a + b)[1..] == a[1..] + b;
      EscapeAllAppend(a[1..], b);
      Regroup2(Escaped(a[0]), EscapeAll(a[1..]), EscapeAll(b));
    }
  }

  lemma {:induction false} EscapeAllPlain(s: string)
    requires Plain(s)
    ensures EscapeAll(s) == s
  {
    if s != "" {
      EscapeAllPlain(s[1..]);
    }
  }

  /** The text of an object that is not closed yet. */
  function OpenObject(ms: seq<Member>): string {
    "{" + PrintMembers(ms)
  }

  class Encoder {
    var buf: string
    ghost var members: seq<Member>   // the members written so far

    /** Between two members: the buffer is the object so far. */
    ghost predicate Valid()
      reads this
    {
      members != [] && buf == OpenObject(members)
    }

    constructor ()
      ensures buf == ""
    {
      buf := "";
    }

    /** Writes s as a string literal. Plain bytes are not copied one by one: start is where the
    segment not yet written begins, and each escape flushes it. */
    method Str(s: string)
      modifies this`buf
      ensures buf == old(buf) + Quote(s)
    {
      hide EscapeAll, Quote;
      buf := buf + "\"";
      ghost var before := buf;
      assert before + EscapeAll("") == before by {
        EscapeAllPlain("");
      }
      var start := 0;
      for i := 0 to |s|
        invariant 0 <= start <= i
        invariant buf == before + EscapeAll(s[..start])
        invariant Plain(s[start..i])
      {
        var esc := EscapeOf(s[i]);
        Segment(s, start, i, before);
        if esc != "" {
          buf := buf + s[start..i] + esc;
          start := i + 1;
        }
      }
      LastSegment(s, start, old(buf));
      buf := buf + s[start..];
      buf := buf + "\"";
    }

    method Key(name: string)
      modifies this`buf
      ensures buf == old(buf) + "," + Quote(name) + ":"
    {
      buf := buf + ",";
      Str(name);
      buf := buf + ":";
    }

    method Uint(v: nat)
      modifies this`buf
      ensures buf == old(buf) + FormatUint(v)
    {
      buf := buf + FormatUint(v);
    }

    method U32s(vs: seq<u32>)
      modifies this`buf
      ensures buf == old(buf) + Print(Arr(Numbers(vs)))
    {
      hide FormatUint, FormatInt, Print, PrintItems;
      ghost var js := Numbers(vs);
      PrintNoItems(old(buf));
      buf := buf + "[";
      for i := 0 to |vs|
        invariant buf == old(buf) + "[" + PrintItems(js[..i])
      {
        PrintItemsSnoc(js, i, old(buf) + "[");
        PrintNumber(vs[i]);
        if i > 0 {
          buf := buf + ",";
        }
        Uint(vs[i]);
      }
      PrintAllItems(js, old(buf));
      buf := buf + "]";
    }

    method Set(f: Features)
      modifies this`buf
      ensures buf == old(buf) + Print(Arr(Strings(NewFeatures(f))))
    {
      hide NewFeatures, Quote, Print, PrintItems;
      var names := NewFeatures(f);
      ghost var js := Strings(names);
      PrintNoItems(old(buf));
      buf := buf + "[";
      for i := 0 to |names|
        invariant buf == old(buf) + "[" + PrintItems(js[..i])
      {
        PrintItemsSnoc(js, i, old(buf) + "[");
        PrintString(names[i]);
        if i > 0 {
          buf := buf + ",";
        }
        Str(names[i]);
      }
      PrintAllItems(js, old(buf));
      buf := buf + "]";
    }

    /** A whole member has been written after the object that was there before. */
    ghost method Wrote(m: Member, before: string)
      requires members != [] && before == OpenObject(members)
      requires buf == before + "," + Quote(m.name) + ":" + Print(m.value)
      modifies this`members
      ensures Valid() && members == old(members) + [m]
    {
      OpenObjectSnoc(members, m);
      members := members + [m];
    }

    method OptStr(name: string, v: Option<string>)
      requires Valid()
      modifies this
      ensures Valid() && members == old(members) + Optional(name, v)
    {
      if v.Some? {
        Key(name);
        Str(v.value);
        Wrote(Text(name, v.value), old(buf));
      }
    }

    /** Writes string members. */
    method Fields(fs: seq<(string, string)>)
      requires Valid()
      modifies this
      ensures Valid() && members == old(members) + Texts(fs)
    {
      ghost var ms := Texts(fs);
      for i := 0 to |fs|
        invariant Valid() && members == old(members) + ms[..i]
      {
        ghost var before := buf;
        Key(fs[i].0);
        Str(fs[i].1);
        Wrote(ms[i], before);
        assert ms[..i + 1] == ms[..i] + [ms[i]];
      }
      assert ms[..|fs|] == ms;
    }

    method IntMember(name: string, n: int)
      requires Valid()
      modifies this
      ensures Valid() && members == old(members) + [Number(name, n)]
    {
      Key(name);
      buf := buf + FormatInt(n);
      Wrote(Number(name, n), old(buf));
    }

    method SetMember(name: string, f: Features)
      requires Valid()
      modifies this
      ensures Valid() && members == old(members) + [Member(name, Arr(Strings(NewFeatures(f))))]
    {
      Key(name);
      Set(f);
      Wrote(Member(name, Arr(Strings(NewFeatures(f)))), old(buf));
    }

    method U32sMember(name: string, vs: seq<u32>)
      requires Valid()
      modifies this
      ensures Valid() && members == old(members) + [Member(name, Arr(Numbers(vs)))]
    {
      Key(name);
      U32s(vs);
      Wrote(Member(name, Arr(Numbers(vs))), old(buf));
    }

    method Hello(m: Message)
      requires m.Hello? && Valid()
      modifies this
      ensures Valid() && members == old(members) + Body(m)
    {
      U32sMember("protocolVersions", m.protocolVersions);
      Fields([("agentVersion", m.agentVersion), ("clusterId", m.clusterId)]);
      SetMember("capabilities", m.capabilities);
      OptStr("kubernetesVersion", m.kubernetesVersion);
      assert Texts([("agentVersion", m.agentVersion), ("clusterId", m.clusterId)]) ==
             [Text("agentVersion", m.agentVersion), Text("clusterId", m.clusterId)];
    }

    method Welcome(m: Message)
      requires m.Welcome? && Valid()
      modifies this
      ensures Valid() && members == old(members) + Body(m)
    {
      IntMember("protocolVersion", m.protocolVersion);
      Fields([("hubVersion", m.hubVersion)]);
      IntMember("heartbeatMs", m.heartbeatMs);
      SetMember("features", m.features);
      assert Texts([("hubVersion", m.hubVersion)]) == [Text("hubVersion", m.hubVersion)];
    }

    method Observation(m: Message)
      requires m.Observation? && Valid()
      modifies this
      ensures Valid() && members == old(members) + Body(m)
    {
      Fields([("target", m.target)]);
      IntMember("generation", m.generation);
      Fields([("phase", m.phase)]);
      OptStr("reason", m.reason_);
      OptStr("message", m.message_);
      assert Texts([("target", m.target)]) == [Text("target", m.target)];
      assert Texts([("phase", m.phase)]) == [Text("phase", m.phase)];
    }

    /** Writes the members of the message. */
    method Variant(m: Message)
      requires Valid()
      modifies this
      ensures Valid() && members == old(members) + Body(m)
    {
      TextsOfBody(m);
      hide Body, Texts, OpenObject;
      match m {
        case Hello(_, _, _, _, _) => Hello(m);
        case Welcome(_, _, _, _) => Welcome(m);
        case Refused(reason, message) => Fields([("reason", reason), ("message", message)]);
        case Heartbeat(n) => IntMember("seq", n);
        case Enroll(token, cluster, csr) => Fields([("token", token), ("clusterId", cluster), ("csr", csr)]);
        case Renew(csr) => Fields([("csr", csr)]);
        case Enrolled(certificate, notAfter) =>
          Fields([("certificate", certificate)]);
          IntMember("notAfter", notAfter);
        case HeartbeatAck(n) => IntMember("seq", n);
        case Apply(target, namespace, name, spec) =>
          Fields([("target", target), ("namespace", namespace), ("name", name), ("spec", spec)]);
        case Observation(_, _, _, _, _) => Observation(m);
        case Unknown =>
      }
    }
  }

  /** The messages written with Encoder.Fields. */
  lemma TextsOfBody(m: Message)
    ensures match m
            case Refused(reason, message) => Texts([("reason", reason), ("message", message)]) == Body(m)
            case Enroll(token, cluster, csr) => Texts([("token", token), ("clusterId", cluster), ("csr", csr)]) == Body(m)
            case Renew(csr) => Texts([("csr", csr)]) == Body(m)
            case Enrolled(certificate, notAfter) =>
              Texts([("certificate", certificate)]) + [Number("notAfter", notAfter)] == Body(m)
            case Apply(target, namespace, name, spec) =>
              Texts([("target", target), ("namespace", namespace), ("name", name), ("spec", spec)]) == Body(m)
            case Heartbeat(n) => [Number("seq", n)] == Body(m)
            case HeartbeatAck(n) => [Number("seq", n)] == Body(m)
            case Unknown => [] == Body(m)
            case _ => true
  {
    hide FormatInt;
  }

  lemma OpenObjectSnoc(ms: seq<Member>, m: Member)
    requires ms != []
    ensures OpenObject(ms + [m]) == OpenObject(ms) + "," + Quote(m.name) + ":" + Print(m.value)
  {
    assert (ms + [m])[1..] == ms[1..] + [m];
    MoreMembersAppend(ms[1..], [m]);
    OneMember(m);
    Regroup6("{", PrintMember(ms[0]), MoreMembers(ms[1..]), ",", Quote(m.name), ":", Print(m.value));
  }

  lemma Regroup6(a: string, b: string, c: string, d: string, e: string, f: string, g: string)
    ensures a + (b + (c + (d + e + f + g))) == a + (b + c) + d + e + f + g
  {
  }

  /** Encode: the JSON of m. */
  method Encode(m: Message) returns (body: string)
    ensures body == Encoded(m)
  {
    var e := new Encoder();
    e.buf := e.buf + "{\"type\":";
    e.Str(Tag(m));
    TypeMember(Tag(m));
    e.members := [Text("type", Tag(m))];
    e.Variant(m);
    e.buf := e.buf + "}";
    body := e.buf;
  }

  lemma TypeMember(tag: string)
    ensures "{\"type\":" + Quote(tag) == OpenObject([Text("type", tag)])
  {
    QuotedType();
    hide Quote, Print;
    OpenObjectOne("type", Str(tag));
    PrintString(tag);
    assert "{" + (Quote("type") + ":") == "{\"type\":";
  }

  lemma QuotedType()
    ensures Quote("type") == "\"type\""
  {
    hide EscapeAll, EscapeOf, Quote;
    LettersAreQuoted("type");
  }

  lemma LettersAreQuoted(s: string)
    requires forall i :: 0 <= i < |s| ==> 'a' <= s[i] <= 'z'
    ensures Quote(s) == "\"" + s + "\""
  {
    EscapeAllPlain(s);
  }

  lemma OpenObjectOne(name: string, value: Json)
    ensures OpenObject([Member(name, value)]) == "{" + (Quote(name) + ":") + Print(value)
  {
    var m := Member(name, value);
    assert [m][1..] == [];
    assert PrintMembers([m]) == PrintMember(m) + "";
  }

  lemma EscapeAllOne(c: char)
    ensures EscapeAll([c]) == Escaped(c)
  {
    assert [c][1..] == "";
    assert EscapeAll([c]) == Escaped(c) + "";
  }

  predicate Plain(s: string) {
    forall i :: 0 <= i < |s| ==> EscapeOf(s[i]) == ""
  }

  lemma EscapeAllThenPlain(a: string, p: string)
    requires Plain(p)
    ensures EscapeAll(a + p) == EscapeAll(a) + p
  {
    EscapeAllAppend(a, p);
    EscapeAllPlain(p);
  }

  /** The step of Encoder.Str that flushes a plain segment and writes an escape. */
  lemma Flushed(a: string, p: string, c: char)
    requires Plain(p) && EscapeOf(c) != ""
    ensures EscapeAll(a + p + [c]) == EscapeAll(a) + p + EscapeOf(c)
  {
    EscapeAllThenPlain(a, p);
    EscapeAllAppend(a + p, [c]);
    EscapeAllOne(c);
  }

  /** One turn of Encoder.Str: a plain byte extends the segment, an escape flushes it. */
  lemma Segment(s: string, start: nat, i: nat, before: string)
    requires start <= i < |s| && Plain(s[start..i])
    ensures EscapeOf(s[i]) == "" ==> Plain(s[start..i + 1])
    ensures EscapeOf(s[i]) != "" ==>
      before + EscapeAll(s[..i + 1]) == before + EscapeAll(s[..start]) + s[start..i] + EscapeOf(s[i])
  {
    hide EscapeAll, EscapeOf;
    assert s[start..i + 1] == s[start..i] + [s[i]];
    if EscapeOf(s[i]) != "" {
      Flushed(s[..start], s[start..i], s[i]);
      Halves(s, start, i);
      Regroup5(before, EscapeAll(s[..start]), s[start..i], EscapeOf(s[i]));
    }
  }

  lemma Halves(s: string, start: nat, i: nat)
    requires start <= i < |s|
    ensures s[..i + 1] == s[..start] + s[start..i] + [s[i]]
  {
  }

  /** The end of Encoder.Str: what follows the last escape is plain. */
  lemma LastSegment(s: string, start: nat, before: string)
    requires start <= |s| && Plain(s[start..|s|])
    ensures before + "\"" + EscapeAll(s[..start]) + s[start..] + "\"" == before + Quote(s)
  {
    assert s == s[..start] + s[start..|s|];
    EscapeAllThenPlain(s[..start], s[start..|s|]);
    Regroup4(before, "\"", EscapeAll(s[..start]), s[start..], "\"");
  }

  lemma {:induction false} MoreItemsAppend(a: seq<Json>, b: seq<Json>)
    ensures MoreItems(a + b) == MoreItems(a) + MoreItems(b)
  {
    if a == [] {
      assert a + b == b;
    } else {
      assert (a + b)[1..] == a[1..] + b;
      MoreItemsAppend(a[1..], b);
      Regroup3(",", Print(a[0]), MoreItems(a[1..]), MoreItems(b));
    }
  }

  lemma PrintNumber(n: nat)
    ensures Print(Num(FormatInt(n))) == FormatUint(n)
  {
  }

  lemma PrintString(s: string)
    ensures Print(Str(s)) == Quote(s)
  {
  }

  lemma PrintNoItems(before: string)
    ensures before + "[" + PrintItems([]) == before + "["
  {
  }

  /** One turn of the loops over items: a comma but for the first, then the item. */
  lemma PrintItemsSnoc(js: seq<Json>, i: nat, before: string)
    requires i < |js|
    ensures js[..0] == []
    ensures before + PrintItems(js[..i + 1])
         == (if i > 0 then before + PrintItems(js[..i]) + "," else before + PrintItems(js[..i])) + Print(js[i])
  {
    var last := [js[i]];
    assert last[1..] == [];
    if i == 0 {
      assert js[..1] == last && js[..0] == [];
      assert PrintItems(last) == Print(js[0]) + "";
    } else {
      SnocAfterFirst(js, i);
      Regroup3(before, PrintItems(js[..i]), ",", Print(js[i]));
    }
  }

  lemma SnocAfterFirst(js: seq<Json>, i: nat)
    requires 0 < i < |js|
    ensures PrintItems(js[..i + 1]) == PrintItems(js[..i]) + "," + Print(js[i])
  {
    hide Print;
    var last := [js[i]];
    assert last[1..] == [];
    assert js[..i + 1][1..] == js[1..i] + last && js[..i][1..] == js[1..i];
    MoreItemsAppend(js[1..i], last);
    assert MoreItems(last) == "," + Print(js[i]) + "";
  }

  lemma PrintAllItems(js: seq<Json>, before: string)
    ensures before + "[" + PrintItems(js[..|js|]) + "]" == before + Print(Arr(js))
  {
    assert js[..|js|] == js;
  }

  lemma OneMember(m: Member)
    ensures MoreMembers([m]) == "," + Quote(m.name) + ":" + Print(m.value)
  {
    assert [m][1..] == [];
    assert MoreMembers([m]) == "," + PrintMember(m) + "";
  }

  function Texts(fs: seq<(string, string)>): (ms: seq<Member>)
    ensures |ms| == |fs| && forall i :: 0 <= i < |fs| ==> ms[i] == Text(fs[i].0, fs[i].1)
  {
    seq(|fs|, i requires 0 <= i < |fs| => Text(fs[i].0, fs[i].1))
  }
}
