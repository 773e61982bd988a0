/** AgentLink messages, feature sets and the handshake (packages/api/agentlink/protocol.go). */
module Protocol {
  import opened Wrappers
  import opened Decimal
  import opened Order

  // ---------- Feature sets ----------

  type Features = seq<string>

  /** slices.Sort, as an insertion sort. */
  function Sorted(names: seq<string>): seq<string> {
    if names == [] then [] else Insert(names[0], Sorted(names[1..]))
  }

  function Insert(x: string, s: seq<string>): seq<string> {
    if s == [] || !Less(s[0], x) then [x] + s else [s[0]] + Insert(x, s[1..])
  }

  /** slices.Compact: drops what equals the element before it. */
  function Compact(s: seq<string>): seq<string> {
    if |s| < 2 then s
    else if s[0] == s[1] then Compact(s[1..])
    else [s[0]] + Compact(s[1..])
  }

  function NewFeatures(names: seq<string>): Features {
    Compact(Sorted(names))
  }

  predicate NotDescending(s: seq<string>) {
    forall i, j :: 0 <= i < j < |s| ==> !Less(s[j], s[i])
  }

  lemma {:induction false} InsertSorts(x: string, s: seq<string>)
    requires NotDescending(s)
    ensures NotDescending(Insert(x, s))
    ensures forall y :: y in Insert(x, s) <==> y == x || y in s
  {
    if s == [] {
    } else if !Less(s[0], x) {
      forall j | 0 <= j < |s| ensures !Less(s[j], x) {
        if Less(s[j], x) {
          LessTotal(s[j], s[0]);
          if Less(s[0], s[j]) {
            LessTransitive(s[0], s[j], x);
          }
        }
      }
    } else {
      InsertSorts(x, s[1..]);
      var r := Insert(x, s[1..]);
      LessTotal(s[0], x);
      forall j | 0 <= j < |r| ensures !Less(r[j], s[0]) {
        assert r[j] in r;
      }
      assert s == [s[0]] + s[1..];
    }
  }

  lemma {:induction false} SortedSorts(names: seq<string>)
    ensures NotDescending(Sorted(names))
    ensures forall y :: y in Sorted(names) <==> y in names
  {
    if names != [] {
      SortedSorts(names[1..]);
      InsertSorts(names[0], Sorted(names[1..]));
      assert names == [names[0]] + names[1..];
    }
  }

  lemma {:induction false} CompactAscends(s: seq<string>)
    requires NotDescending(s)
    ensures Ascending(Compact(s))
    ensures forall y :: y in Compact(s) <==> y in s
    ensures s != [] ==> Compact(s) != [] && Compact(s)[0] == s[0]
  {
    if |s| >= 2 {
      var t := s[1..];
      CompactAscends(t);
      assert s == [s[0]] + t;
      if s[0] != s[1] {
        var c := Compact(t);
        LessTotal(s[0], s[1]);
        forall j | 0 <= j < |c| ensures Less(s[0], c[j]) {
          if j > 0 {
            LessTransitive(s[0], c[0], c[j]);
          }
        }
      }
    }
  }

  /** NewFeatures is sorted, has no duplicates and holds exactly the given names. */
  lemma NewFeaturesIsTheSet(names: seq<string>)
    ensures Ascending(NewFeatures(names))
    ensures forall y :: y in NewFeatures(names) <==> y in names
  {
    SortedSorts(names);
    CompactAscends(Sorted(names));
  }

  lemma TailLacksHead(f: Features, y: string)
    requires f != [] && Ascending(f)
    ensures y in f[1..] <==> y in f && y != f[0]
  {
    LessTotal(f[0], f[0]);
    assert f == [f[0]] + f[1..];
    if y in f[1..] {
      var k :| 0 < k < |f| && f[k] == y;
      assert Less(f[0], f[k]);
    }
  }

  lemma EmptyTogether(f: Features, g: Features)
    requires forall y :: y in f ==> y in g
    ensures f != [] ==> g != []
  {
    if f != [] {
      assert f[0] in g;
    }
  }

  /** Two ascending lists of the same names are the same list. */
  lemma {:induction false} AscendingUnique(f: Features, g: Features)
    requires Ascending(f) && Ascending(g)
    requires forall y :: y in f <==> y in g
    ensures f == g
  {
    EmptyTogether(f, g);
    EmptyTogether(g, f);
    if f != [] && g != [] {
      assert f[0] in g && g[0] in f;
      LessTotal(f[0], g[0]);
      assert f[0] == g[0];
      forall y ensures y in f[1..] <==> y in g[1..] {
        TailLacksHead(f, y);
        TailLacksHead(g, y);
      }
      AscendingUnique(f[1..], g[1..]);
    }
  }

  /** NewFeatures is canonical: the order and the repeats of the names do not show. */
  lemma NewFeaturesCanonical(a: seq<string>, b: seq<string>)
    ensures NewFeatures(a) == NewFeatures(b) <==> (forall y :: y in a <==> y in b)
  {
    NewFeaturesIsTheSet(a);
    NewFeaturesIsTheSet(b);
    if forall y :: y in a <==> y in b {
      AscendingUnique(NewFeatures(a), NewFeatures(b));
    } else {
      var y :| (y in a) != (y in b);
      assert (y in NewFeatures(a)) != (y in NewFeatures(b));
    }
  }

  /** The names of f that also are in g, in the order of f. */
  function Common(f: Features, g: Features): Features {
    if f == [] then []
    else if f[|f| - 1] in g then Common(f[..|f| - 1], g) + [f[|f| - 1]]
    else Common(f[..|f| - 1], g)
  }

  function Intersection(f: Features, other: Features): Features {
    Common(NewFeatures(f), other)
  }

  /** Features.Intersect */
  method Intersect(f: Features, other: Features) returns (out: Features)
    ensures out == Intersection(f, other)
  {
    var names := NewFeatures(f);
    out := [];
    for i := 0 to |names|
      invariant out == Common(names[..i], other)
    {
      assert names[..i + 1][..i] == names[..i];
      if names[i] in other {
        out := out + [names[i]];
      }
    }
    assert names[..|names|] == names;
  }

  lemma {:induction false} CommonIsIntersection(f: Features, g: Features)
    requires Ascending(f)
    ensures Ascending(Common(f, g))
    ensures forall y :: y in Common(f, g) <==> y in f && y in g
  {
    if f != [] {
      var n := |f| - 1;
      CommonIsIntersection(f[..n], g);
      assert f == f[..n] + [f[n]];
      var c := Common(f[..n], g);
      forall i | 0 <= i < |c| ensures Less(c[i], f[n]) {
        assert c[i] in f[..n];
      }
    }
  }

  /** Intersect is the set intersection, sorted, and it is symmetric. */
  lemma IntersectionIsSymmetric(f: Features, g: Features)
    ensures Ascending(Intersection(f, g))
    ensures forall y :: y in Intersection(f, g) <==> y in f && y in g
    ensures Intersection(f, g) == Intersection(g, f)
  {
    NewFeaturesIsTheSet(f);
    NewFeaturesIsTheSet(g);
    CommonIsIntersection(NewFeatures(f), g);
    CommonIsIntersection(NewFeatures(g), f);
    AscendingUnique(Intersection(f, g), Intersection(g, f));
  }

  /** Intersect sees only which names the other side offers. */
  lemma {:induction false} CommonIgnoresForm(f: Features, g: Features)
    ensures Common(f, NewFeatures(g)) == Common(f, g)
  {
    NewFeaturesIsTheSet(g);
    if f != [] {
      CommonIgnoresForm(f[..|f| - 1], g);
    }
  }

  // ---------- Messages ----------

  const RUNTIME_PHASES := ["accepted", "applying", "ready", "failed", "rejected", "unknown"]

  /** A phase this build does not know reads as unknown. */
  function ParseRuntimePhase(s: string): string {
    if s in RUNTIME_PHASES then s else "unknown"
  }

  const REFUSALS := ["unsupportedProtocol", "unsupportedCapability", "unknownCluster", "revoked",
                     "badRequest", "invalidToken", "other"]

  /** A reason this build does not know reads as other. */
  function ParseRefusal(s: string): string {
    if s in REFUSALS then s else "other"
  }

  datatype Message =
    | Hello(protocolVersions: seq<u32>, agentVersion: string, clusterId: string, capabilities: Features,
            kubernetesVersion: Option<string>)
    | Welcome(protocolVersion: u32, hubVersion: string, heartbeatMs: u64, features: Features)
    | Refused(reason: string, message: string)
    | Heartbeat(seq_: u64)
    | HeartbeatAck(seq_: u64)
    | Enroll(token: string, clusterId: string, csr: string)
    | Renew(csr: string)
    | Enrolled(certificate: string, notAfter: i64)
    | Apply(target: string, namespace: string, name: string, spec: string)
    | Observation(target: string, generation: i64, phase: string, reason_: Option<string>, message_: Option<string>)
    | Unknown

  // ---------- The handshake ----------

  /** An inclusive range of protocol versions. */
  datatype Versions = Versions(min: u32, max: u32) {
    predicate Contains(v: u32) {
      min <= v <= max
    }

    /** The range from its highest version down, without 0. */
    function Descent(): seq<u32> {
      DescentFrom(max, min)
    }

    method Descending() returns (out: seq<u32>)
      ensures out == Descent()
    {
      out := [];
      var v: u32 := max;
      while v >= min && v > 0
        invariant out + DescentFrom(v, min) == Descent()
        decreases v
      {
        assert out + DescentFrom(v, min) == out + [v] + DescentFrom(v - 1, min);
        out := out + [v];
        v := v - 1;
      }
      assert out + DescentFrom(v, min) == out;
    }
  }

  function DescentFrom(v: u32, min: u32): seq<u32> {
    if v >= min && v > 0 then [v] + DescentFrom(v - 1, min) else []
  }

  /** Descending lists exactly the versions of the range above 0, each once, highest first. */
  lemma {:induction false} DescentLists(v: u32, min: u32)
    ensures forall x: u32 :: x in DescentFrom(v, min) <==> min <= x <= v && x > 0
    ensures forall i, j :: 0 <= i < j < |DescentFrom(v, min)| ==> DescentFrom(v, min)[i] > DescentFrom(v, min)[j]
  {
    if v >= min && v > 0 {
      DescentLists(v - 1, min);
      var rest := DescentFrom(v - 1, min);
      forall j | 0 <= j < |rest| ensures rest[j] < v {
        assert rest[j] in rest;
      }
    }
  }

  datatype Negotiated = Negotiated(version: u32, features: Features) {
    /** Refuses a command that needs a feature unless both sides know it. */
    function Require(feature: string): Result<(), string> {
      if feature in features then Ok(()) else Err("unsupportedCapability")
    }
  }

  /** The highest offered version of the range. */
  function Best(versions: Versions, offered: seq<u32>): (best: Option<u32>) {
    if offered == [] then None
    else
      var n := |offered| - 1;
      var before := Best(versions, offered[..n]);
      if versions.Contains(offered[n]) && (before.None? || offered[n] > before.value) then Some(offered[n]) else before
  }

  function Negotiation(versions: Versions, features: Features, offered: seq<u32>, offeredFeatures: Features)
    : Result<Negotiated, string>
  {
    match Best(versions, offered)
    case None => Err("unsupportedProtocol")
    case Some(v) => Ok(Negotiated(v, Intersection(features, offeredFeatures)))
  }

  method Negotiate(versions: Versions, features: Features, offered: seq<u32>, offeredFeatures: Features)
    returns (r: Result<Negotiated, string>)
    ensures r == Negotiation(versions, features, offered, offeredFeatures)
  {
    var best: u32 := 0;
    var found := false;
    for i := 0 to |offered|
      invariant Best(versions, offered[..i]) == if found then Some(best) else None
    {
      assert offered[..i + 1][..i] == offered[..i];
      if versions.Contains(offered[i]) && (!found || offered[i] > best) {
        best, found := offered[i], true;
      }
    }
    assert offered[..|offered|] == offered;
    if !found {
      return Err("unsupportedProtocol");
    }
    var agreed := Intersect(features, offeredFeatures);
    return Ok(Negotiated(best, agreed));
  }

  /** Best is the highest version both sides hold, and there is none exactly when they share none. */
  lemma {:induction false} BestIsHighest(versions: Versions, offered: seq<u32>)
    ensures Best(versions, offered).None? <==> forall v :: v in offered ==> !versions.Contains(v)
    ensures Best(versions, offered).Some? ==>
      var best := Best(versions, offered).value;
      best in offered && versions.Contains(best) && forall v :: v in offered && versions.Contains(v) ==> v <= best
  {
    if offered != [] {
      var n := |offered| - 1;
      BestIsHighest(versions, offered[..n]);
      assert offered == offered[..n] + [offered[n]];
    }
  }

  /** Only which versions and which features are offered matters, not their order or repeats. */
  lemma NegotiationIgnoresForm(versions: Versions, features: Features,
                               offeredA: seq<u32>, featuresA: Features, offeredB: seq<u32>, featuresB: Features)
    requires forall v :: v in offeredA <==> v in offeredB
    requires forall f :: f in featuresA <==> f in featuresB
    ensures Negotiation(versions, features, offeredA, featuresA) == Negotiation(versions, features, offeredB, featuresB)
  {
    BestIsHighest(versions, offeredA);
    BestIsHighest(versions, offeredB);
    CommonIgnoresForm(NewFeatures(features), featuresA);
    CommonIgnoresForm(NewFeatures(features), featuresB);
    NewFeaturesCanonical(featuresA, featuresB);
  }

  /** After a handshake a command is refused exactly when one side does not know its feature. */
  lemma RequireNeedsBothSides(versions: Versions, features: Features, offered: seq<u32>, offeredFeatures: Features, f: string)
    requires Negotiation(versions, features, offered, offeredFeatures).Ok?
    ensures Negotiation(versions, features, offered, offeredFeatures).value.Require(f).Ok? <==>
      f in features && f in offeredFeatures
  {
    IntersectionIsSymmetric(features, offeredFeatures);
  }

  /** What a build at protocol version n speaks: n and the version before it, if there is one. */
  function SupportedVersions(n: u32): Versions
    requires n >= 1
  {
    Versions(if n >= 2 then n - 1 else 1, n)
  }

  /** Version skew: a hub at n and an agent at m agree exactly when they are at most one
  version apart, and then on the older of the two. */
  lemma SkewOfOne(n: u32, m: u32, hub: Features, agent: Features)
    requires n >= 1 && m >= 1
    ensures var r := Negotiation(SupportedVersions(n), hub, SupportedVersions(m).Descent(), agent);
      && (r.Ok? <==> n - 1 <= m <= n + 1)
      && (r.Ok? ==> r.value.version == if n < m then n else m)
      && (r.Err? ==> r.error == "unsupportedProtocol")
  {
    var offered := SupportedVersions(m).Descent();
    DescentLists(m, SupportedVersions(m).min);
    BestIsHighest(SupportedVersions(n), offered);
    assert n - 1 <= m <= n + 1 ==> (if n < m then n else m) in offered;
  }
}
