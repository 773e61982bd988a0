/** The write fence of ApplicationRuntime (packages/api/v1alpha1/runtime.go): which envelope an
update may replace by which, and what that means for whole runs of writes. */
module Fence {
  import opened Wrappers
  import opened Decimal
  import Utf8

  /** The frozen RenderPlan of an envelope. */
  datatype Plan = Plan(id: string, rendererVersion: string, digest: string, resources: string)

  /** ApplicationRuntimeSpec: the envelope the hub accepted for a target. */
  datatype Envelope = Envelope(
    targetId: string,
    lifecycleUid: string,
    controlEpoch: i64,
    generation: i64,
    inputHash: string,
    releaseId: string,
    plan: Plan)

  // ---------- The schema ----------

  const MAX_RESOURCES := 131072

  /** The characters of a valid UTF-8 string, as the schema's maxLength counts them. */
  function Characters(s: string): nat {
    if s == "" then 0
    else (if 0x80 <= s[0] as int < 0xC0 then 0 else 1) + Characters(s[1..])
  }

  predicate Within(s: string, max: nat) {
    Utf8.Valid(s) && Characters(s) <= max
  }

  predicate IsHexDigit(c: char) {
    '0' <= c <= '9' || 'a' <= c <= 'f'
  }

  /** The pattern ^sha256:[0-9a-f]{64}$ */
  predicate IsDigest(s: string) {
    |s| == 71 && s[..7] == "sha256:" && forall i :: 7 <= i < |s| ==> IsHexDigit(s[i])
  }

  predicate PlanValid(p: Plan) {
    && Within(p.id, 64)
    && Within(p.rendererVersion, 64)
    && Within(p.digest, 80)
    && IsDigest(p.digest)
    && Within(p.resources, MAX_RESOURCES)
  }

  predicate SchemaValid(e: Envelope) {
    && Within(e.targetId, 64)
    && Within(e.lifecycleUid, 64)
    && e.controlEpoch >= 0
    && e.generation >= 1
    && Within(e.inputHash, 80)
    && IsDigest(e.inputHash)
    && Within(e.releaseId, 64)
    && PlanValid(e.plan)
  }

  // ---------- The transition rules ----------

  predicate SameContent(a: Envelope, b: Envelope) {
    a.inputHash == b.inputHash && a.releaseId == b.releaseId && a.plan == b.plan
  }

  /** The CEL rules on an update from a to b. */
  predicate Allowed(a: Envelope, b: Envelope) {
    && b.targetId == a.targetId
    && b.lifecycleUid == a.lifecycleUid
    && b.controlEpoch >= a.controlEpoch
    && b.generation >= a.generation
    && (b.generation != a.generation || SameContent(b, a))
  }

  /** One write: the stored envelope afterwards. A create is not bound by the transition rules. */
  function Write(stored: Option<Envelope>, e: Envelope): Option<Envelope> {
    if SchemaValid(e) && (stored.None? || Allowed(stored.value, e)) then Some(e) else stored
  }

  /** The writes of all writers, in the order they reach the apiserver. */
  function Run(stored: Option<Envelope>, writes: seq<Envelope>): Option<Envelope> {
    if writes == [] then stored
    else Write(Run(stored, writes[..|writes| - 1]), writes[|writes| - 1])
  }

  // ---------- The rules are a partial order ----------

  /** The rules compose: what two updates may do, one may do; and no update can be undone. */
  lemma AllowedIsPartialOrder(a: Envelope, b: Envelope, c: Envelope)
    ensures Allowed(a, a)
    ensures Allowed(a, b) && Allowed(b, c) ==> Allowed(a, c)
    ensures Allowed(a, b) && Allowed(b, a) ==> a == b
  {
  }

  // ---------- Runs ----------

  lemma {:induction false} RunSplits(stored: Option<Envelope>, a: seq<Envelope>, b: seq<Envelope>)
    ensures Run(stored, a + b) == Run(Run(stored, a), b)
  {
    if b == [] {
      assert a + b == a;
    } else {
      var n := |b| - 1;
      assert (a + b)[..|a + b| - 1] == a + b[..n];
      RunSplits(stored, a, b[..n]);
    }
  }

  /** A run only moves up: what is stored later may replace what was stored before. */
  lemma {:induction false} RunMovesUp(stored: Option<Envelope>, writes: seq<Envelope>)
    requires stored.Some?
    ensures Run(stored, writes).Some? && Allowed(stored.value, Run(stored, writes).value)
  {
    if writes != [] {
      RunMovesUp(stored, writes[..|writes| - 1]);
    }
  }

  /** Any two states of one run, however far apart: same target and lifecycle, epoch and
  generation not lower, and the same content if the generation is the same. */
  lemma RunIsFenced(writes: seq<Envelope>, i: nat, j: nat)
    requires i <= j <= |writes| && Run(None, writes[..i]).Some?
    ensures Run(None, writes[..j]).Some?
    ensures var a := Run(None, writes[..i]).value; var b := Run(None, writes[..j]).value;
      && a.targetId == b.targetId && a.lifecycleUid == b.lifecycleUid
      && a.controlEpoch <= b.controlEpoch && a.generation <= b.generation
      && (a.generation == b.generation ==> SameContent(a, b))
  {
    assert writes[..j] == writes[..i] + writes[i..j];
    RunSplits(None, writes[..i], writes[i..j]);
    RunMovesUp(Run(None, writes[..i]), writes[i..j]);
  }

  /** Once a write of some epoch is stored, no later write of an older epoch changes the state. */
  lemma OldEpochNeverWrites(writes: seq<Envelope>, i: nat, j: nat)
    requires i <= j < |writes| && Run(None, writes[..i]).Some?
    requires writes[j].controlEpoch < Run(None, writes[..i]).value.controlEpoch
    ensures Run(None, writes[..j + 1]) == Run(None, writes[..j])
  {
    RunIsFenced(writes, i, j);
    assert writes[..j + 1][..j] == writes[..j];
  }

  /** How many scalar values a valid string has, which is what the schema's limits are about. */
  ghost predicate HasRunes(s: string, n: nat)
    decreases |s|
  {
    if s == "" then n == 0
    else n > 0 && exists r: Utf8.Rune :: Utf8.EncodeRune(r) <= s && HasRunes(s[|Utf8.EncodeRune(r)|..], n - 1)
  }

  lemma {:induction false} CharactersAppend(a: string, b: string)
    ensures Characters(a + b) == Characters(a) + Characters(b)
  {
    if a == "" {
      assert a + b == b;
    } else {
      assert (a + b)[1..] == a[1..] + b;
      CharactersAppend(a[1..], b);
    }
  }

  lemma RuneIsOne(r: Utf8.Rune)
    ensures Characters(Utf8.EncodeRune(r)) == 1
  {
    var e := Utf8.EncodeRune(r);
    assert forall i :: 1 <= i < |e| ==> 0x80 <= e[i] as int < 0xC0;
    assert !(0x80 <= e[0] as int < 0xC0);
    hide Utf8.EncodeRune;
    Continuations(e[1..]);
  }

  lemma {:induction false} Continuations(s: string)
    requires forall i :: 0 <= i < |s| ==> 0x80 <= s[i] as int < 0xC0
    ensures Characters(s) == 0
  {
    if s != "" {
      Continuations(s[1..]);
    }
  }

  lemma {:induction false} CharactersAreRunes(s: string)
    requires Utf8.Valid(s)
    ensures HasRunes(s, Characters(s))
    decreases |s|
  {
    hide Utf8.EncodeRune, Utf8.Run, Characters;
    if s == "" {
      CharactersOfNothing();
    } else {
      var r := Utf8.FirstRune(s);
      var n := |Utf8.EncodeRune(r)|;
      CharactersAreRunes(s[n..]);
      RuneIsOne(r);
      assert s == Utf8.EncodeRune(r) + s[n..];
      CharactersAppend(Utf8.EncodeRune(r), s[n..]);
    }
  }

  lemma CharactersOfNothing()
    ensures Characters("") == 0
  {
  }

  /** A string of valid UTF-8 with at most so many characters. */
  ghost predicate AtMost(s: string, max: nat) {
    Utf8.Valid(s) && exists n: nat :: n <= max && HasRunes(s, n)
  }

  lemma WithinIsAtMost(s: string, max: nat)
    requires Within(s, max)
    ensures AtMost(s, max)
  {
    hide HasRunes, Utf8.Run;
    CharactersAreRunes(s);
  }

  /** sha256: and 64 hexadecimal digits. */
  ghost predicate HasDigest(s: string) {
    exists hex :: s == "sha256:" + hex && |hex| == 64 && forall i :: 0 <= i < 64 ==> hex[i] in "0123456789abcdef"
  }

  lemma DigestIs(s: string)
    requires IsDigest(s)
    ensures HasDigest(s)
  {
    var hex := s[7..];
    assert s == "sha256:" + hex;
    forall i | 0 <= i < 64 ensures hex[i] in "0123456789abcdef" {
      assert IsHexDigit(s[i + 7]);
      HexIsListed(hex[i]);
    }
  }

  lemma HexIsListed(c: char)
    requires IsHexDigit(c)
    ensures c in "0123456789abcdef"
  {
  }

  /** Whatever is delivered, what is stored is in the limits of the schema. */
  lemma {:induction false} StoredIsInLimits(writes: seq<Envelope>)
    requires Run(None, writes).Some?
    ensures var e := Run(None, writes).value;
      && e.controlEpoch >= 0 && e.generation >= 1
      && AtMost(e.targetId, 64) && AtMost(e.lifecycleUid, 64) && AtMost(e.releaseId, 64)
      && AtMost(e.plan.id, 64) && AtMost(e.plan.rendererVersion, 64) && AtMost(e.plan.resources, 128 * 1024)
      && HasDigest(e.inputHash) && HasDigest(e.plan.digest)
  {
    hide AtMost, HasDigest, IsDigest, Within;
    if writes != [] {
      var before := writes[..|writes| - 1];
      if Run(None, writes) == Run(None, before) {
        StoredIsInLimits(before);
      } else {
        var e := writes[|writes| - 1];
        WithinIsAtMost(e.targetId, 64);
        WithinIsAtMost(e.lifecycleUid, 64);
        WithinIsAtMost(e.releaseId, 64);
        WithinIsAtMost(e.plan.id, 64);
        WithinIsAtMost(e.plan.rendererVersion, 64);
        WithinIsAtMost(e.plan.resources, 128 * 1024);
        DigestIs(e.inputHash);
        DigestIs(e.plan.digest);
      }
    }
  }

  // ---------- Convergence ----------

  ghost predicate AllSchemaValid(es: seq<Envelope>) {
    forall e :: e in es ==> SchemaValid(e)
  }

  /** An envelope that may replace every other. */
  ghost predicate Dominates(g: Envelope, es: seq<Envelope>) {
    g in es && forall e :: e in es ==> Allowed(e, g)
  }

  ghost predicate SameEnvelopes(a: seq<Envelope>, b: seq<Envelope>) {
    forall e :: e in a <==> e in b
  }

  lemma {:induction false} StoredWasDelivered(writes: seq<Envelope>)
    ensures Run(None, writes).Some? ==> Run(None, writes).value in writes
    ensures writes != [] && AllSchemaValid(writes) ==> Run(None, writes).Some?
  {
    if writes != [] {
      var n := |writes| - 1;
      StoredWasDelivered(writes[..n]);
      assert writes == writes[..n] + [writes[n]];
    }
  }

  /** If one of the delivered envelopes dominates, it is what is stored in the end, in
  whatever order and however often they are delivered. */
  lemma {:induction false} DominantIsStored(writes: seq<Envelope>, g: Envelope)
    requires AllSchemaValid(writes) && Dominates(g, writes)
    ensures Run(None, writes) == Some(g)
  {
    var n := |writes| - 1;
    assert writes == writes[..n] + [writes[n]];
    StoredWasDelivered(writes[..n]);
    if g in writes[..n] {
      DominantIsStored(writes[..n], g);
      AllowedIsPartialOrder(g, writes[n], g);
    }
  }

  /** The exact condition: every delivery of the same envelopes, whatever the order and the
  repeats, ends in the same state if and only if one of them dominates. */
  lemma ConvergesExactlyWhenDominated(es: seq<Envelope>)
    requires es != [] && AllSchemaValid(es)
    ensures (forall writes :: SameEnvelopes(writes, es) ==> Run(None, writes) == Run(None, es))
      <==> exists g :: Dominates(g, es)
  {
    if exists g :: Dominates(g, es) {
      var g :| Dominates(g, es);
      DominantIsStored(es, g);
      forall writes | SameEnvelopes(writes, es) ensures Run(None, writes) == Run(None, es) {
        DominantIsStored(writes, g);
      }
    }
    if forall writes :: SameEnvelopes(writes, es) ==> Run(None, writes) == Run(None, es) {
      StoredWasDelivered(es);
      var g := Run(None, es).value;
      forall e | e in es ensures Allowed(e, g) {
        FirstIsBelow(es, e);
      }
      assert Dominates(g, es);
    }
  }

  /** What is delivered first stays below whatever is stored. */
  lemma FirstIsBelow(es: seq<Envelope>, e: Envelope)
    requires e in es && AllSchemaValid(es)
    requires forall writes :: SameEnvelopes(writes, es) ==> Run(None, writes) == Run(None, es)
    requires Run(None, es).Some?
    ensures Allowed(e, Run(None, es).value)
  {
    hide SchemaValid, Allowed, Run;
    var writes := [e] + es;
    assert SameEnvelopes(writes, es);
    RunSplits(None, [e], es);
    RunOfOne(None, e);
    RunMovesUp(Some(e), es);
  }

  /** How the hub issues envelopes for one lifecycle of a target: generation and epoch never
  decrease, and a generation determines its content. */
  ghost predicate Issued(issued: seq<Envelope>) {
    && AllSchemaValid(issued)
    && (forall i, j :: 0 <= i < j < |issued| ==>
        && issued[i].targetId == issued[j].targetId && issued[i].lifecycleUid == issued[j].lifecycleUid
        && issued[i].controlEpoch <= issued[j].controlEpoch && issued[i].generation <= issued[j].generation)
    && (forall i, j :: 0 <= i < |issued| && 0 <= j < |issued| && issued[i].generation == issued[j].generation ==>
        SameContent(issued[i], issued[j]))
  }

  /** The envelopes delivered, by their place in the order of issue. */
  function Delivered(issued: seq<Envelope>, order: seq<nat>): (writes: seq<Envelope>)
    requires forall k :: 0 <= k < |order| ==> order[k] < |issued|
    ensures |writes| == |order| && forall k :: 0 <= k < |order| ==> writes[k] == issued[order[k]]
  {
    seq(|order|, k requires 0 <= k < |order| => issued[order[k]])
  }

  /** Delivering any of the issued envelopes, late, repeatedly and in any order, leaves the
  newest delivered one stored. */
  lemma NewestDeliveredIsStored(issued: seq<Envelope>, order: seq<nat>, newest: nat)
    requires Issued(issued) && forall k :: 0 <= k < |order| ==> order[k] < |issued|
    requires newest in order && forall k :: 0 <= k < |order| ==> order[k] <= newest
    ensures Run(None, Delivered(issued, order)) == Some(issued[newest])
  {
    var writes := Delivered(issued, order);
    var k :| 0 <= k < |order| && order[k] == newest;
    assert writes[k] == issued[newest];
    forall e | e in writes ensures SchemaValid(e) && Allowed(e, issued[newest]) {
      var i :| 0 <= i < |writes| && writes[i] == e;
      assert e == issued[order[i]];
    }
    DominantIsStored(writes, issued[newest]);
  }

  /** Delivery order decides between two envelopes exactly when neither may replace the other;
  so without the hub's rule, when a new controller counts generations from 1 again under a
  higher epoch, whichever envelope comes first stays. */
  lemma OrderDecidesExactlyWhenIncomparable(a: Envelope, b: Envelope)
    requires SchemaValid(a) && SchemaValid(b)
    ensures Run(None, [a, b]) != Run(None, [b, a]) <==> !Allowed(a, b) && !Allowed(b, a)
    ensures a.controlEpoch < b.controlEpoch && b.generation < a.generation ==>
      Run(None, [a, b]) == Some(a) && Run(None, [b, a]) == Some(b)
  {
    hide SchemaValid;
    RunOfTwo(a, b);
    RunOfTwo(b, a);
    AllowedIsPartialOrder(a, b, a);
  }

  lemma RunOfOne(stored: Option<Envelope>, e: Envelope)
    ensures Run(stored, [e]) == Write(stored, e)
  {
    hide Write;
    assert [e][..0] == [];
  }

  lemma RunOfTwo(a: Envelope, b: Envelope)
    ensures Run(None, [a, b]) == Write(Write(None, a), b)
  {
    hide Write;
    assert [a, b] == [a] + [b];
    RunSplits(None, [a], [b]);
    RunOfOne(None, a);
    RunOfOne(Run(None, [a]), b);
  }
}
