/** Every envelope the schema accepts fits a frame: escaped once by encoding/json in the spec's JSON
and once more by the link in the Apply message, a character costs at most 7 bytes. */
module EnvelopeSize {
  import opened Wrappers
  import opened Decimal
  import opened Json
  import opened JsonRoundTrip
  import opened JsonUtf8
  import opened Protocol
  import opened Wire
  import opened WireDecode
  import opened WireLaw
  import opened Frame
  import opened Fence
  import opened EncodingJson

  // ---------- The cost of escaping ----------

  /** The bytes of s inside a string literal. */
  function Cost(s: string): nat {
    |EscapeAll(s)|
  }

  /** The bytes of s inside a string literal that is itself inside one. */
  function Cost2(s: string): nat {
    Cost(EscapeAll(s))
  }

  lemma CostAppend(a: string, b: string)
    ensures Cost(a + b) == Cost(a) + Cost(b)
  {
    EscapeAllAppend(a, b);
  }

  lemma {:induction false} CostAtMost6(s: string)
    ensures Cost(s) <= 6 * |s|
  {
    if s != "" {
      CostAtMost6(s[1..]);
    }
  }

  lemma PlainCost(c: char)
    requires EscapeOf(c) == ""
    ensures Cost([c]) == 1
  {
    EscapeAllOne(c);
  }

  lemma ShortEscape(c: char)
    requires |EscapeOf(c)| == 2
    ensures forall i :: 0 <= i < 2 ==> |Escaped(EscapeOf(c)[i])| <= 2
  {
  }

  lemma LongEscape(c: char)
    requires |EscapeOf(c)| > 2
    ensures var e := EscapeOf(c); |e| == 6 && e[0] == '\\' && Plain(e[1..])
  {
    var e := EscapeOf(c);
    assert e == "\\u00" + [HEX_DIGITS[c as int / 16]] + [HEX_DIGITS[c as int % 16]];
    HexIsPlain(c as int / 16);
    HexIsPlain(c as int % 16);
    assert EscapeOf('u') == "" && EscapeOf('0') == "";
    forall i | 0 <= i < |e[1..]| ensures EscapeOf(e[1..][i]) == "" {
      assert e[1..][i] == e[i + 1];
    }
  }

  lemma HexIsPlain(d: nat)
    requires d < 16
    ensures EscapeOf(HEX_DIGITS[d]) == ""
  {
  }

  /** Escaped twice, a byte becomes at most 7: a backslash doubles, and what follows it in an
  escape needs none, unless it is the escaped quote or backslash itself. */
  lemma EscapedCost(c: char)
    ensures Cost(Escaped(c)) <= 7
    ensures c as int >= 0x80 ==> Cost(Escaped(c)) == 1
  {
    hide Cost;
    if EscapeOf(c) == "" {
      PlainCost(c);
    } else if |EscapeOf(c)| == 2 {
      ShortEscape(c);
      CostAtMost2(EscapeOf(c));
    } else {
      EscapeLengths(c);
      LongEscapeCost(c);
    }
  }

  lemma EscapeLengths(c: char)
    ensures EscapeOf(c) != "" ==> c as int < 0x80
    ensures EscapeOf(c) == "" || |EscapeOf(c)| == 2 || |EscapeOf(c)| == 6
  {
  }

  lemma LongEscapeCost(c: char)
    requires |EscapeOf(c)| > 2
    ensures Cost(Escaped(c)) == 7
  {
    LongEscape(c);
    hide EscapeOf;
    var e := EscapeOf(c);
    assert e == ['\\'] + e[1..];
    CostAppend(['\\'], e[1..]);
    EscapeAllOne('\\');
    BackslashCost();
    EscapeAllPlain(e[1..]);
  }

  lemma BackslashCost()
    ensures Escaped('\\') == "\\\\"
  {
  }

  lemma CostAtMost2(e: string)
    requires |e| == 2 && forall i :: 0 <= i < 2 ==> |Escaped(e[i])| <= 2
    ensures Cost(e) <= 4
  {
    assert e == [e[0]] + [e[1]];
    CostAppend([e[0]], [e[1]]);
    EscapeAllOne(e[0]);
    EscapeAllOne(e[1]);
  }

  /** The continuation bytes still to come. */
  function Pending(q: Utf8.State): nat {
    match q
    case Start => 0
    case One => 1
    case Two => 2
    case Three => 3
    case AfterE0 => 2
    case AfterED => 2
    case AfterF0 => 3
    case AfterF4 => 3
    case Bad => 0
  }

  /** The bytes U+2028 and U+2029 begin with. */
  function Leads(s: string): nat {
    if s == "" then 0 else (if s[0] as int == 0xE2 then 1 else 0) + Leads(s[1..])
  }

  /** A bound on what a text costs once its separators are escaped: 4 bytes more for each. */
  function Heavy(s: string): nat {
    Cost(s) + 4 * Leads(s)
  }

  lemma {:induction false} LeadsAppend(a: string, b: string)
    ensures Leads(a + b) == Leads(a) + Leads(b)
  {
    if a == "" {
      assert a + b == b;
    } else {
      assert (a + b)[1..] == a[1..] + b;
      LeadsAppend(a[1..], b);
    }
  }

  lemma HeavyAppend(a: string, b: string)
    ensures Heavy(a + b) == Heavy(a) + Heavy(b)
  {
    hide Cost, Leads;
    CostAppend(a, b);
    LeadsAppend(a, b);
  }

  lemma HeavyOne(c: char)
    ensures Heavy([c]) == |Escaped(c)| + (if c as int == 0xE2 then 4 else 0)
    ensures Heavy([c]) <= 6
  {
    EscapeAllOne(c);
    var rest := [c][1..];
    assert rest == "" && Leads(rest) == 0;
    EscapeLengths(c);
  }

  lemma {:induction false} HeavyAtMost6(s: string)
    ensures Heavy(s) <= 6 * |s|
  {
    if s != "" {
      HeavyAtMost6(s[1..]);
      HeavyOne(s[0]);
      assert s == [s[0]] + s[1..];
      HeavyAppend([s[0]], s[1..]);
    }
  }

  lemma EscapeOfLead(c: char)
    ensures Leads(Escaped(c)) == if c as int == 0xE2 then 1 else 0
  {
    EscapeLengths(c);
    hide EscapeOf;
    if EscapeOf(c) == "" {
      assert [c][1..] == "";
    } else {
      EscapeIsAscii(c);
      AsciiHasNoLead(EscapeOf(c));
    }
  }

  lemma {:induction false} AsciiHasNoLead(s: string)
    requires Utf8.Ascii(s)
    ensures Leads(s) == 0
  {
    if s != "" {
      AsciiHasNoLead(s[1..]);
    }
  }

  lemma HighByteCost(c: char)
    requires c as int >= 0x80
    ensures Heavy([c]) == 1 + if c as int == 0xE2 then 4 else 0
  {
    EscapeLengths(c);
    HeavyOne(c);
  }

  lemma FrontIsPlain(t: string)
    requires Separator(t)
    ensures FrontEscape(false, t)[0] == '\\' && Plain(FrontEscape(false, t)[1..])
  {
    var e := FrontEscape(false, t);
    assert EscapeOf('u') == EscapeOf('2') == EscapeOf('0') == EscapeOf('8') == EscapeOf('9') == "";
    forall i | 0 <= i < |e[1..]| ensures EscapeOf(e[1..][i]) == "" {
      assert e[1..][i] == e[i + 1];
    }
  }

  lemma SeparatorCost(t: string)
    requires Separator(t)
    ensures Cost(FrontEscape(false, t)) == 7 && Heavy(t[..3]) == 7
  {
    hide Heavy, EscapeAll, EscapeOf, Plain;
    assert t[..3] == [t[0]] + [t[1]] + [t[2]];
    HeavyAppend([t[0]] + [t[1]], [t[2]]);
    HeavyAppend([t[0]], [t[1]]);
    HighByteCost(t[0]);
    HighByteCost(t[1]);
    HighByteCost(t[2]);
    var e := FrontEscape(false, t);
    assert |e| == 6;
    hide FrontEscape;
    FrontIsPlain(t);
    assert e == ['\\'] + e[1..];
    CostAppend(['\\'], e[1..]);
    EscapeAllOne('\\');
    BackslashCost();
    EscapeAllPlain(e[1..]);
  }

  /** What encoding/json makes of a text costs no more than this. */
  lemma {:induction false} GoTextCost(t: string)
    ensures Cost(GoText(false, t)) <= Heavy(t)
    decreases |t|
  {
    hide EscapeAll, Heavy, Cost, FrontEscape;
    if t == "" {
      HeavyOfNothing();
    } else if Separator(t) {
      GoTextCost(t[3..]);
      SeparatorCost(t);
      CostAppend(FrontEscape(false, t), GoText(false, t[3..]));
      assert t == t[..3] + t[3..];
      HeavyAppend(t[..3], t[3..]);
    } else {
      GoTextCost(t[1..]);
      CostAppend([t[0]], GoText(false, t[1..]));
      assert t == [t[0]] + t[1..];
      HeavyAppend([t[0]], t[1..]);
      CostIsLess([t[0]]);
    }
  }

  lemma HeavyOfNothing()
    ensures Cost("") == Heavy("") == 0
  {
  }

  lemma CostIsLess(s: string)
    ensures Cost(s) <= Heavy(s)
  {
  }

  /** The bytes of s inside a string literal of a text of encoding/json, inside one of the link. */
  function Heavy2(s: string): nat {
    Heavy(EscapeAll(s))
  }

  /** Escaped twice, a character of any length costs at most 7 bytes. */
  lemma {:induction false} Heavy2AtMost7(q: Utf8.State, s: string)
    requires Utf8.Run(q, s) == Utf8.Start
    ensures Cost2(s) <= Heavy2(s) <= 7 * Characters(s) + Pending(q)
    decreases |s|
  {
    if s != "" {
      var c := s[0];
      Utf8.RunBad(s[1..]);
      Heavy2AtMost7(Utf8.Step(q, c), s[1..]);
      HeavyAppend(Escaped(c), EscapeAll(s[1..]));
      EscapedCost(c);
      EscapeOfLead(c);
    }
  }

  /** The same per byte, for strings that need not be valid UTF-8: 7, not 6 times 6. */
  lemma {:induction false} Cost2AtMost7PerByte(s: string)
    ensures Cost2(s) <= 7 * |s|
  {
    if s != "" {
      Cost2AtMost7PerByte(s[1..]);
      CostAppend(Escaped(s[0]), EscapeAll(s[1..]));
      EscapedCost(s[0]);
    }
  }

  // ---------- The spec's JSON ----------

  function PlanMembers(p: Plan): seq<Member> {
    [Text("id", p.id), Text("rendererVersion", p.rendererVersion), Text("digest", p.digest), Text("resources", p.resources)]
  }

  function SpecMembers(e: Envelope): seq<Member> {
    [Text("targetId", e.targetId), Text("lifecycleUid", e.lifecycleUid), Number("controlEpoch", e.controlEpoch),
     Number("generation", e.generation), Text("inputHash", e.inputHash), Text("releaseId", e.releaseId),
     Member("plan", Obj(PlanMembers(e.plan)))]
  }

  /** marshalUnescaped of the hub: the JSON of ApplicationRuntimeSpec, members in declaration order,
  without HTML escapes. */
  function SpecText(e: Envelope): string {
    GoText(false, Print(Obj(SpecMembers(e))))
  }

  lemma QuoteLength(s: string)
    ensures |Quote(s)| <= 2 + 6 * |s|
  {
    CostAtMost6(s);
  }

  lemma QuoteCost(s: string)
    ensures Heavy(Quote(s)) <= 12 + Heavy2(s)
  {
    HeavyAppend("\"" + EscapeAll(s), "\"");
    HeavyAppend("\"", EscapeAll(s));
    HeavyAtMost6("\"");
  }

  /** A member costs its value and at most 600 bytes for its name and punctuation. */
  lemma MemberCost(m: Member)
    requires |m.name| <= 15
    ensures Heavy(PrintMember(m)) <= 594 + Heavy(Print(m.value))
    ensures Heavy("," + PrintMember(m)) <= 600 + Heavy(Print(m.value))
  {
    QuoteCost(m.name);
    QuoteLength(m.name);
    HeavyAtMost6(Quote(m.name));
    HeavyAtMost6(":");
    HeavyAtMost6(",");
    HeavyAppend(Quote(m.name) + ":", Print(m.value));
    HeavyAppend(Quote(m.name), ":");
    HeavyAppend(",", PrintMember(m));
  }

  /** What the members from the i-th on cost at most. */
  function MembersCost(ms: seq<Member>, i: nat): nat
    decreases |ms| - i
  {
    if i >= |ms| then 0 else 600 + Heavy(Print(ms[i].value)) + MembersCost(ms, i + 1)
  }

  lemma {:induction false} MoreMembersCost(ms: seq<Member>, i: nat)
    requires i <= |ms| && forall k :: 0 <= k < |ms| ==> |ms[k].name| <= 15
    ensures Heavy(MoreMembers(ms[i..])) <= MembersCost(ms, i)
    decreases |ms| - i
  {
    if i < |ms| {
      assert ms[i..][1..] == ms[i + 1..];
      MemberCost(ms[i]);
      MoreMembersCost(ms, i + 1);
      HeavyAppend("," + PrintMember(ms[i]), MoreMembers(ms[i + 1..]));
    }
  }

  lemma ObjectCost(ms: seq<Member>)
    requires forall i :: 0 <= i < |ms| ==> |ms[i].name| <= 15
    ensures Heavy(Print(Obj(ms))) <= 12 + MembersCost(ms, 0)
  {
    HeavyAppend("{" + PrintMembers(ms), "}");
    HeavyAppend("{", PrintMembers(ms));
    HeavyAtMost6("{");
    HeavyAtMost6("}");
    if ms != [] {
      MemberCost(ms[0]);
      MoreMembersCost(ms, 1);
      HeavyAppend(PrintMember(ms[0]), MoreMembers(ms[1..]));
    }
  }

  lemma TextCost(s: string, max: nat)
    requires Within(s, max)
    ensures Heavy(Print(Str(s))) <= 12 + 7 * max
  {
    QuoteCost(s);
    Heavy2AtMost7(Utf8.Start, s);
  }

  lemma NumberCost(n: i64)
    ensures |FormatInt(n)| <= 20
    ensures Heavy(Print(Num(FormatInt(n)))) <= 120
  {
    assert Pow10(5) == 100000;
    assert Pow10(10) == 10000000000;
    assert Pow10(15) == 1000000000000000;
    assert Pow10(19) == 10000000000000000000;
    var m: int := n;
    FormatLength(if m < 0 then -m else m, 19);
    HeavyAtMost6(FormatInt(n));
  }

  lemma MembersCostUnfold(ms: seq<Member>, i: nat)
    requires i <= |ms|
    ensures MembersCost(ms, i) == if i == |ms| then 0 else 600 + Heavy(Print(ms[i].value)) + MembersCost(ms, i + 1)
  {
  }

  lemma PlanCost(p: Plan)
    requires PlanValid(p)
    ensures Heavy(Print(Obj(PlanMembers(p)))) <= 12 + 4 * 612 + 7 * (64 + 64 + 80 + MAX_RESOURCES)
  {
    var ms := PlanMembers(p);
    ObjectCost(ms);
    TextCost(p.id, 64);
    TextCost(p.rendererVersion, 64);
    TextCost(p.digest, 80);
    TextCost(p.resources, MAX_RESOURCES);
    MembersCostUnfold(ms, 0);
    MembersCostUnfold(ms, 1);
    MembersCostUnfold(ms, 2);
    MembersCostUnfold(ms, 3);
    MembersCostUnfold(ms, 4);
  }

  /** The whole spec, as the Apply message quotes it. */
  lemma SpecCost(e: Envelope)
    requires SchemaValid(e)
    ensures Cost(SpecText(e)) <= 930000
  {
    GoTextCost(Print(Obj(SpecMembers(e))));
    var ms := SpecMembers(e);
    ObjectCost(ms);
    TextCost(e.targetId, 64);
    TextCost(e.lifecycleUid, 64);
    NumberCost(e.controlEpoch);
    NumberCost(e.generation);
    TextCost(e.inputHash, 80);
    TextCost(e.releaseId, 64);
    PlanCost(e.plan);
    MembersCostUnfold(ms, 0);
    MembersCostUnfold(ms, 1);
    MembersCostUnfold(ms, 2);
    MembersCostUnfold(ms, 3);
    MembersCostUnfold(ms, 4);
    MembersCostUnfold(ms, 5);
    MembersCostUnfold(ms, 6);
    MembersCostUnfold(ms, 7);
  }

  // ---------- The Apply message ----------

  /** The envelope of a target, as the hub sends it. */
  function EnvelopeApply(target: string, namespace: string, name: string, e: Envelope): Message {
    Apply(target, namespace, name, SpecText(e))
  }

  lemma MemberLength(m: Member)
    requires |m.name| <= 15 && m.value.Str?
    ensures |PrintMember(m)| <= 99 + Cost(m.value.s)
  {
    QuoteLength(m.name);
  }

  /** Up to four string members: their escaped strings and at most 100 bytes each. */
  lemma {:induction false} MoreTextsLength(fs: seq<(string, string)>, i: nat, total: nat)
    requires i <= |fs| && forall k :: 0 <= k < |fs| ==> |fs[k].0| <= 15
    requires total == TextsCost(fs, i)
    ensures |MoreMembers(Texts(fs)[i..])| <= total
    decreases |fs| - i
  {
    if i < |fs| {
      assert Texts(fs)[i..][1..] == Texts(fs)[i + 1..];
      MemberLength(Texts(fs)[i]);
      MoreTextsLength(fs, i + 1, TextsCost(fs, i + 1));
    }
  }

  function TextsCost(fs: seq<(string, string)>, i: nat): nat
    decreases |fs| - i
  {
    if i >= |fs| then 0 else 100 + Cost(fs[i].1) + TextsCost(fs, i + 1)
  }

  lemma TextsCostUnfold(fs: seq<(string, string)>, i: nat)
    requires i <= |fs|
    ensures TextsCost(fs, i) == if i == |fs| then 0 else 100 + Cost(fs[i].1) + TextsCost(fs, i + 1)
  {
  }

  /** An Apply with a schema-valid envelope and names of at most 253 bytes is never refused as
  too large. */
  lemma ApplyFits(target: string, namespace: string, name: string, e: Envelope)
    requires SchemaValid(e) && |target| <= 253 && |namespace| <= 253 && |name| <= 253
    ensures |Encoded(EnvelopeApply(target, namespace, name, e))| <= MAX_FRAME
  {
    hide SchemaValid, SpecText, Cost, TextsCost, EscapeAll;
    var spec := SpecText(e);
    var fs := [("type", "apply"), ("target", target), ("namespace", namespace), ("name", name), ("spec", spec)];
    var ms := Texts(fs);
    assert Encoded(EnvelopeApply(target, namespace, name, e)) == "{" + PrintMembers(ms) + "}" by {
      assert ms == [Text("type", "apply")] + Body(EnvelopeApply(target, namespace, name, e));
    }
    CostAtMost6("apply");
    CostAtMost6(target);
    CostAtMost6(namespace);
    CostAtMost6(name);
    SpecCost(e);
    MemberLength(ms[0]);
    MoreTextsLength(fs, 1, TextsCost(fs, 1));
    TextsCostUnfold(fs, 1);
    TextsCostUnfold(fs, 2);
    TextsCostUnfold(fs, 3);
    TextsCostUnfold(fs, 4);
    TextsCostUnfold(fs, 5);
  }

  lemma SpecNumbersOk(e: Envelope)
    ensures NumbersOk(Obj(SpecMembers(e)))
  {
    FormatIntIsNumber(e.controlEpoch);
    FormatIntIsNumber(e.generation);
    assert NumbersOk(Obj(PlanMembers(e.plan)));
  }

  lemma PlanStringsValid(p: Plan)
    requires PlanValid(p)
    ensures StringsValid(Obj(PlanMembers(p)))
  {
    hide Utf8.Run, Utf8.Valid, Characters, IsDigest;
    NamedValid("id", Str(p.id));
    NamedValid("rendererVersion", Str(p.rendererVersion));
    NamedValid("digest", Str(p.digest));
    NamedValid("resources", Str(p.resources));
    FourValid(Text("id", p.id), Text("rendererVersion", p.rendererVersion), Text("digest", p.digest),
              Text("resources", p.resources));
    ObjectUtf8(PlanMembers(p));
  }

  lemma SpecStringsValid(e: Envelope)
    requires SchemaValid(e)
    ensures StringsValid(Obj(SpecMembers(e)))
  {
    hide Utf8.Run, Utf8.Valid, Characters, IsDigest, PlanValid, PlanMembers, FormatInt;
    NamedValid("targetId", Str(e.targetId));
    NamedValid("lifecycleUid", Str(e.lifecycleUid));
    NumberValid("controlEpoch", e.controlEpoch);
    NumberValid("generation", e.generation);
    NamedValid("inputHash", Str(e.inputHash));
    NamedValid("releaseId", Str(e.releaseId));
    PlanStringsValid(e.plan);
    NamedValid("plan", Obj(PlanMembers(e.plan)));
    FourValid(Text("targetId", e.targetId), Text("lifecycleUid", e.lifecycleUid),
              Number("controlEpoch", e.controlEpoch), Number("generation", e.generation));
    ThreeValid(Text("inputHash", e.inputHash), Text("releaseId", e.releaseId), Member("plan", Obj(PlanMembers(e.plan))));
    MembersValidAppend(SpecMembers(e)[..4], SpecMembers(e)[4..]);
    assert SpecMembers(e) == SpecMembers(e)[..4] + SpecMembers(e)[4..];
    ObjectUtf8(SpecMembers(e));
  }

  /** What the agent gets: the Apply as it was sent, and in its spec the envelope's JSON. */
  lemma ApplyArrives(target: string, namespace: string, name: string, e: Envelope)
    requires SchemaValid(e)
    requires Utf8.Valid(target) && Utf8.Valid(namespace) && Utf8.Valid(name)
    ensures var m := EnvelopeApply(target, namespace, name, e);
      Decode(Encoded(m)) == Ok(m) && Parse(m.spec) == Some(Obj(SpecMembers(e)))
  {
    hide Decode, Encoded, SchemaValid, SpecMembers, Parse, Utf8.Run, Utf8.Valid, Print, GoText;
    SpecNumbersOk(e);
    SpecStringsValid(e);
    SpecUtf8(e);
    DecodeOfEncode(EnvelopeApply(target, namespace, name, e));
    ParseOfPrint(Obj(SpecMembers(e)));
    ParseOfGoText(false, Print(Obj(SpecMembers(e))));
  }

  lemma SpecUtf8(e: Envelope)
    requires SchemaValid(e)
    ensures Utf8.Valid(SpecText(e))
  {
    hide SchemaValid, SpecMembers, Print, GoText;
    SpecNumbersOk(e);
    SpecStringsValid(e);
    RunPrint(Obj(SpecMembers(e)));
    GoKeepsUtf8(false, Utf8.Start, Print(Obj(SpecMembers(e))));
  }
}
