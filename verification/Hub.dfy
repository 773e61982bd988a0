/** The envelopes that the hub builds (apps/kuben/internal/kube/materializer/agent.go): the fence takes
every one of them, and they are issued as the fence's laws want it. */
module Hub {
  import opened Wrappers
  import opened Decimal
  import opened Fence
  import Utf8

  /** A run and the revisions it makes effective; the identifiers are UUIDs in text form. */
  datatype Run = Run(target: string, lifecycleUid: string, release: string, configRevision: string, generation: u64)

  datatype FrozenPlan = FrozenPlan(id: string, rendererVersion: string, resources: string)

  /** jsonx.SHA256, of the hexadecimal digest of a text. */
  function Sha256(digest: string -> string, text: string): string {
    "sha256:" + digest(text)
  }

  /** What the input hash is the hash of. */
  function HashInput(digest: string -> string, r: Run, plan: FrozenPlan): string {
    r.release + "/" + r.configRevision + "/" + FormatUint(r.generation) + "/" + Sha256(digest, plan.resources)
  }

  /** Envelope: none if the generation is out of range. */
  function EnvelopeOf(digest: string -> string, r: Run, plan: FrozenPlan): Option<Envelope> {
    if r.generation >= TWO_TO_THE_63 then None
    else
      var hash := Sha256(digest, plan.resources);
      Some(Envelope(
        r.target,
        r.lifecycleUid,
        0,
        r.generation,
        Sha256(digest, HashInput(digest, r, plan)),
        r.release,
        Plan(plan.id, plan.rendererVersion, hash, plan.resources)))
  }

  // ---------- What the hub has to build them from ----------

  /** 36 hexadecimal digits and hyphens. */
  predicate IsUuid(s: string) {
    |s| == 36 && forall i :: 0 <= i < |s| ==> IsHexDigit(s[i]) || s[i] == '-'
  }

  /** A digest has 64 hexadecimal digits. */
  ghost predicate Digests(digest: string -> string) {
    forall text :: |digest(text)| == 64 && forall i :: 0 <= i < 64 ==> IsHexDigit(digest(text)[i])
  }

  predicate RunOk(r: Run) {
    IsUuid(r.target) && IsUuid(r.lifecycleUid) && IsUuid(r.release) && r.generation >= 1
  }

  /** The renderer refuses larger resources. */
  predicate PlanOk(p: FrozenPlan) {
    IsUuid(p.id) && Within(p.rendererVersion, 64) && Utf8.Valid(p.resources) && |p.resources| <= 128 * 1024
  }

  // ---------- The fence takes them ----------

  lemma {:induction false} CharactersAtMostBytes(s: string)
    ensures Characters(s) <= |s|
  {
    if s != "" {
      CharactersAtMostBytes(s[1..]);
    }
  }

  lemma ShortAscii(s: string, max: nat)
    requires Utf8.Ascii(s) && |s| <= max
    ensures Within(s, max)
  {
    Utf8.RunAscii(s);
    CharactersAtMostBytes(s);
  }

  lemma UuidFits(s: string)
    requires IsUuid(s)
    ensures Within(s, 64)
  {
    ShortAscii(s, 64);
  }

  lemma DigestFits(digest: string -> string, text: string)
    requires Digests(digest)
    ensures IsDigest(Sha256(digest, text)) && Within(Sha256(digest, text), 80)
  {
    var s := Sha256(digest, text);
    assert s[..7] == "sha256:";
    forall i | 7 <= i < |s| ensures IsHexDigit(s[i]) {
      assert s[i] == digest(text)[i - 7];
    }
    ShortAscii(s, 80);
  }

  /** Every envelope that the hub builds is one that the schema takes, at epoch 0 and with the run's
  generation, and it builds one for every generation that fits. */
  lemma BuiltIsValid(digest: string -> string, r: Run, plan: FrozenPlan)
    requires Digests(digest) && RunOk(r) && PlanOk(plan)
    ensures EnvelopeOf(digest, r, plan).Some? <==> r.generation < TWO_TO_THE_63
    ensures EnvelopeOf(digest, r, plan).Some? ==>
      var e := EnvelopeOf(digest, r, plan).value;
      SchemaValid(e) && e.controlEpoch == 0 && e.generation == r.generation && e.plan.resources == plan.resources
  {
    hide Within, IsDigest, IsUuid, Digests, HashInput;
    UuidFits(r.target);
    UuidFits(r.lifecycleUid);
    UuidFits(r.release);
    UuidFits(plan.id);
    DigestFits(digest, plan.resources);
    DigestFits(digest, HashInput(digest, r, plan));
    ResourcesFit(plan);
  }

  lemma ResourcesFit(plan: FrozenPlan)
    requires PlanOk(plan)
    ensures Within(plan.resources, MAX_RESOURCES)
  {
    CharactersAtMostBytes(plan.resources);
  }

  // ---------- They are issued in order ----------

  /** The runs of one lifecycle of a target: generations do not go down, and a generation has one
  release, configuration and plan. */
  ghost predicate InOrder(runs: seq<(Run, FrozenPlan)>) {
    && (forall i :: 0 <= i < |runs| ==> RunOk(runs[i].0) && PlanOk(runs[i].1) && runs[i].0.generation < TWO_TO_THE_63)
    && (forall i, j :: 0 <= i < j < |runs| ==>
        && runs[i].0.target == runs[j].0.target && runs[i].0.lifecycleUid == runs[j].0.lifecycleUid
        && runs[i].0.generation <= runs[j].0.generation
        && (runs[i].0.generation == runs[j].0.generation ==> runs[i] == runs[j]))
  }

  function Built(digest: string -> string, runs: seq<(Run, FrozenPlan)>): (es: seq<Envelope>)
    requires forall i :: 0 <= i < |runs| ==> EnvelopeOf(digest, runs[i].0, runs[i].1).Some?
    ensures |es| == |runs| && forall i :: 0 <= i < |es| ==> Some(es[i]) == EnvelopeOf(digest, runs[i].0, runs[i].1)
  {
    seq(|runs|, i requires 0 <= i < |runs| => EnvelopeOf(digest, runs[i].0, runs[i].1).value)
  }

  /** Whatever of the envelopes that the hub built for one lifecycle is delivered, in whatever order and
  however often, the apiserver ends with the one of the newest run among them. */
  lemma NewestRunIsStored(digest: string -> string, runs: seq<(Run, FrozenPlan)>, order: seq<nat>, newest: nat)
    requires Digests(digest) && InOrder(runs) && forall k :: 0 <= k < |order| ==> order[k] < |runs|
    requires newest in order && forall k :: 0 <= k < |order| ==> order[k] <= newest
    ensures forall i :: 0 <= i < |runs| ==> EnvelopeOf(digest, runs[i].0, runs[i].1).Some?
    ensures newest < |runs|
    ensures Fence.Run(None, Delivered(Built(digest, runs), order)) == Some(Built(digest, runs)[newest])
  {
    hide Digests, SchemaValid, RunOk, PlanOk, Fence.Run;
    forall i | 0 <= i < |runs|
      ensures EnvelopeOf(digest, runs[i].0, runs[i].1).Some? && SchemaValid(EnvelopeOf(digest, runs[i].0, runs[i].1).value)
    {
      BuiltIsValid(digest, runs[i].0, runs[i].1);
    }
    var issued := Built(digest, runs);
    assert Issued(issued);
    var k :| 0 <= k < |order| && order[k] == newest;
    NewestDeliveredIsStored(issued, order, newest);
  }

  // ---------- What the input hash tells ----------

  ghost predicate Collision(digest: string -> string) {
    exists a, b :: a != b && digest(a) == digest(b)
  }

  /** Texts of equal length before the same separator. */
  lemma CutAt(a: string, b: string, x: string, y: string)
    requires |a| == |b| && a + "/" + x == b + "/" + y
    ensures a == b && x == y
  {
    var s, t := a + "/" + x, b + "/" + y;
    assert s[..|a|] == a && t[..|b|] == b;
    assert s[|a| + 1..] == x && t[|b| + 1..] == y;
  }

  /** Digits before a slash. */
  lemma DigitsCut(a: string, b: string, x: string, y: string)
    requires AllDigits(a) && AllDigits(b) && a + "/" + x == b + "/" + y
    ensures a == b && x == y
  {
    var s, t := a + "/" + x, b + "/" + y;
    var i := if |a| <= |b| then |a| else |b|;
    assert s[i] == t[i];
    assert |a| == |b|;
    CutAt(a, b, x, y);
  }

  lemma SameInput(digest: string -> string, r: Run, p: FrozenPlan, r': Run, p': FrozenPlan)
    requires IsUuid(r.release) && IsUuid(r.configRevision) && IsUuid(r'.release) && IsUuid(r'.configRevision)
    requires HashInput(digest, r, p) == HashInput(digest, r', p')
    ensures r.release == r'.release && r.configRevision == r'.configRevision && r.generation == r'.generation
    ensures digest(p.resources) == digest(p'.resources)
  {
    hide FormatUint, Sha256;
    var h, h' := Sha256(digest, p.resources), Sha256(digest, p'.resources);
    var n, n' := FormatUint(r.generation), FormatUint(r'.generation);
    Nest(r.release, r.configRevision, n, h);
    Nest(r'.release, r'.configRevision, n', h');
    CutAt(r.release, r'.release, r.configRevision + "/" + (n + "/" + h), r'.configRevision + "/" + (n' + "/" + h'));
    CutAt(r.configRevision, r'.configRevision, n + "/" + h, n' + "/" + h');
    DigitsCut(n, n', h, h');
    ParseUintFormat(r.generation, TWO_TO_THE_64);
    ParseUintFormat(r'.generation, TWO_TO_THE_64);
    AfterPrefix(digest, p.resources);
    AfterPrefix(digest, p'.resources);
  }

  lemma Nest(a: string, b: string, c: string, d: string)
    ensures a + "/" + b + "/" + c + "/" + d == a + "/" + (b + "/" + (c + "/" + d))
  {
    var l, r := a + "/" + b + "/" + c + "/" + d, a + "/" + (b + "/" + (c + "/" + d));
    assert l == r;
  }

  lemma AfterPrefix(digest: string -> string, text: string)
    ensures Sha256(digest, text)[7..] == digest(text)
  {
  }

  /** Unless two texts have one digest, the input hash tells the release, the configuration, the
  generation and the resources: two envelopes agree on it exactly when they agree on those. */
  lemma InputHashTells(digest: string -> string, r: Run, p: FrozenPlan, r': Run, p': FrozenPlan)
    requires IsUuid(r.release) && IsUuid(r.configRevision) && IsUuid(r'.release) && IsUuid(r'.configRevision)
    requires EnvelopeOf(digest, r, p).Some? && EnvelopeOf(digest, r', p').Some? && !Collision(digest)
    ensures EnvelopeOf(digest, r, p).value.inputHash == EnvelopeOf(digest, r', p').value.inputHash <==>
      (r.release == r'.release && r.configRevision == r'.configRevision && r.generation == r'.generation
       && p.resources == p'.resources)
  {
    hide FormatUint, IsUuid, Sha256;
    AfterPrefix(digest, HashInput(digest, r, p));
    AfterPrefix(digest, HashInput(digest, r', p'));
    if EnvelopeOf(digest, r, p).value.inputHash == EnvelopeOf(digest, r', p').value.inputHash {
      assert HashInput(digest, r, p) == HashInput(digest, r', p');
      SameInput(digest, r, p, r', p');
    }
  }
}
