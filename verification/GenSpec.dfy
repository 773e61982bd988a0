/** The normalizer that states the default of `additionalProperties` (tools/genspec/main.go):
what it does to a decoded document. SchemaMeaning.dfy has what the change means. */
module GenSpec {
  import opened Wrappers
  import opened Values

  const ADDITIONAL := "additionalProperties"
  const COMPOSING := ["properties", ADDITIONAL, "patternProperties", "oneOf", "anyOf", "allOf", "$ref"]

  predicate IsObjectType(t: Value) {
    match t
    case Str(s) => s == "object"
    case Arr(items) => Str("object") in items
    case _ => false
  }

  predicate FreeForm(members: map<string, Value>) {
    && "type" in members && IsObjectType(members["type"])
    && forall k :: k in COMPOSING ==> k !in members
  }

  /** The document with `additionalProperties: true` on every free-form object. */
  function Normalized(v: Value): Value
    decreases v, 1
  {
    match v
    case Arr(items) => Arr(seq(|items|, i requires 0 <= i < |items| => Normalized(items[i])))
    case Obj(members) => Obj(NormalizedMembers(v))
    case _ => v
  }

  function NormalizedMembers(v: Value): map<string, Value>
    requires v.Obj?
    decreases v, 0
  {
    var below := map k | k in v.members :: Normalized(v.members[k]);
    if FreeForm(v.members) then below[ADDITIONAL := Bool(true)] else below
  }

  /** How many free-form objects the document has. */
  ghost function FreeForms(v: Value): nat
    decreases v, 1
  {
    match v
    case Arr(items) => InItems(v, |items|)
    case Obj(members) => (if FreeForm(members) then 1 else 0) + InMembers(v, members.Keys)
    case _ => 0
  }

  ghost function InItems(v: Value, n: nat): nat
    requires v.Arr? && n <= |v.items|
    decreases v, 0, n
  {
    if n == 0 then 0 else InItems(v, n - 1) + FreeForms(v.items[n - 1])
  }

  ghost function InMembers(v: Value, keys: set<string>): nat
    requires v.Obj? && keys <= v.members.Keys
    decreases v, 0, |keys|
  {
    if keys == {} then 0
    else
      var k :| k in keys;
      FreeForms(v.members[k]) + InMembers(v, keys - {k})
  }

  /** The order in which the members are visited does not matter for the count. */
  lemma {:induction false} CountAnyOrder(v: Value, keys: set<string>, k: string)
    requires v.Obj? && keys <= v.members.Keys && k in keys
    ensures InMembers(v, keys) == FreeForms(v.members[k]) + InMembers(v, keys - {k})
    decreases |keys|
  {
    var j :| j in keys && InMembers(v, keys) == FreeForms(v.members[j]) + InMembers(v, keys - {j});
    if j != k {
      CountAnyOrder(v, keys - {j}, k);
      CountAnyOrder(v, keys - {k}, j);
      assert keys - {j} - {k} == keys - {k} - {j};
    }
  }

  // ---------- One run leaves nothing to do ----------

  lemma NormalizedType(t: Value)
    ensures IsObjectType(Normalized(t)) == IsObjectType(t)
  {
    if t.Arr? {
      var items := Normalized(t).items;
      forall i | 0 <= i < |t.items| ensures items[i] == Str("object") <==> t.items[i] == Str("object") {
        assert items[i] == Normalized(t.items[i]);
      }
      if Str("object") in t.items {
        var i :| 0 <= i < |t.items| && t.items[i] == Str("object");
        assert items[i] == Str("object");
      }
    }
  }

  lemma NormalizedIsNotFreeForm(v: Value)
    requires v.Obj?
    ensures !FreeForm(NormalizedMembers(v))
  {
    var members, after := v.members, NormalizedMembers(v);
    if FreeForm(members) {
      assert ADDITIONAL in after && ADDITIONAL in COMPOSING;
    } else {
      assert after.Keys == members.Keys;
      if "type" in members {
        NormalizedType(members["type"]);
      }
    }
  }

  lemma {:induction false} NoneLeftInMembers(v: Value, keys: set<string>)
    requires v.Obj? && keys <= v.members.Keys && forall k :: k in keys ==> FreeForms(v.members[k]) == 0
    ensures InMembers(v, keys) == 0
    decreases |keys|
  {
    if keys != {} {
      var k :| k in keys && InMembers(v, keys) == FreeForms(v.members[k]) + InMembers(v, keys - {k});
      NoneLeftInMembers(v, keys - {k});
    }
  }

  lemma {:induction false} NoneLeftInItems(v: Value, n: nat)
    requires v.Arr? && n <= |v.items| && forall i :: 0 <= i < n ==> FreeForms(v.items[i]) == 0
    ensures InItems(v, n) == 0
  {
    if n > 0 {
      NoneLeftInItems(v, n - 1);
    }
  }

  /** A second run finds no free-form object. */
  lemma {:induction false} NoneLeft(v: Value)
    ensures FreeForms(Normalized(v)) == 0
    decreases v
  {
    match v
    case Arr(items) =>
      forall i | 0 <= i < |items| ensures FreeForms(Normalized(v).items[i]) == 0 {
        NoneLeft(items[i]);
      }
      NoneLeftInItems(Normalized(v), |items|);
    case Obj(members) =>
      var after := NormalizedMembers(v);
      NormalizedIsNotFreeForm(v);
      forall k | k in after ensures FreeForms(after[k]) == 0 {
        if k in members && !(k == ADDITIONAL && FreeForm(members)) {
          NoneLeft(members[k]);
        }
      }
      NoneLeftInMembers(Normalized(v), after.Keys);
    case _ =>
  }

  lemma {:induction false} ItemsHaveNone(v: Value, n: nat, i: nat)
    requires v.Arr? && i < n <= |v.items| && InItems(v, n) == 0
    ensures FreeForms(v.items[i]) == 0
  {
    if i < n - 1 {
      ItemsHaveNone(v, n - 1, i);
    }
  }

  /** The normalizer changes a document exactly when it counts something. */
  lemma {:induction false} UnchangedExactlyWhenNone(v: Value)
    ensures Normalized(v) == v <==> FreeForms(v) == 0
    decreases v
  {
    if FreeForms(v) == 0 {
      match v
      case Arr(items) =>
        forall i | 0 <= i < |items| ensures Normalized(items[i]) == items[i] {
          ItemsHaveNone(v, |items|, i);
          UnchangedExactlyWhenNone(items[i]);
        }
        assert Normalized(v).items == items;
      case Obj(members) =>
        forall k | k in members ensures Normalized(members[k]) == members[k] {
          CountAnyOrder(v, members.Keys, k);
          UnchangedExactlyWhenNone(members[k]);
        }
        assert NormalizedMembers(v) == members;
      case _ =>
    }
    NoneLeft(v);
  }

  /** Running it again changes nothing. */
  lemma NormalizedIdempotent(v: Value)
    ensures Normalized(Normalized(v)) == Normalized(v)
  {
    NoneLeft(v);
    UnchangedExactlyWhenNone(Normalized(v));
  }

  // ---------- Nothing else changes ----------

  datatype Step = Key(name: string) | Index(i: nat)

  /** What a path leads to. */
  function Find(v: Value, path: seq<Step>): Option<Value>
    decreases |path|
  {
    if path == [] then Some(v)
    else
      match path[0]
      case Key(k) => if v.Obj? && k in v.members then Find(v.members[k], path[1..]) else None
      case Index(i) => if v.Arr? && i < |v.items| then Find(v.items[i], path[1..]) else None
  }

  /** The path leads to a member that the normalizer adds. */
  predicate Added(v: Value, path: seq<Step>) {
    && path != [] && path[|path| - 1] == Key(ADDITIONAL)
    && var parent := Find(v, path[..|path| - 1]);
       parent.Some? && parent.value.Obj? && FreeForm(parent.value.members)
  }

  /** Every path of the document leads where it led, to the normalized value, and the only new
  paths are the members added to its free-form objects. */
  lemma {:induction false} PathsAreKept(v: Value, path: seq<Step>)
    ensures Added(v, path) ==> Find(v, path).None?
    ensures Find(Normalized(v), path) ==
      if Find(v, path).Some? then Some(Normalized(Find(v, path).value))
      else if Added(v, path) then Some(Bool(true))
      else None
    decreases |path|
  {
    hide FreeForm;
    if |path| == 1 {
      assert path[..0] == [] && path[1..] == [];
      FreeFormLacks(v);
    } else if |path| > 1 {
      AddedBelow(v, path);
      var below := Child(v, path[0]);
      if below.Some? {
        PathsAreKept(below.value, path[1..]);
      }
      ChildNormalized(v, path[0]);
      hide Normalized, NormalizedMembers, Added;
      ScalarHasNone(path[1..]);
    }
  }

  lemma FreeFormLacks(v: Value)
    ensures v.Obj? && FreeForm(v.members) ==> ADDITIONAL !in v.members
  {
    assert ADDITIONAL in COMPOSING;
  }

  /** One step down. */
  function Child(v: Value, step: Step): Option<Value> {
    match step
    case Key(k) => if v.Obj? && k in v.members then Some(v.members[k]) else None
    case Index(i) => if v.Arr? && i < |v.items| then Some(v.items[i]) else None
  }

  lemma AddedBelow(v: Value, path: seq<Step>)
    requires |path| > 1
    ensures Added(v, path) <==> Child(v, path[0]).Some? && Added(Child(v, path[0]).value, path[1..])
  {
    hide FreeForm;
    assert path[1..][..|path| - 2] == path[..|path| - 1][1..];
  }

  lemma ChildNormalized(v: Value, step: Step)
    ensures Child(v, step).Some? ==> Child(Normalized(v), step) == Some(Normalized(Child(v, step).value))
    ensures Child(v, step).None? ==> Child(Normalized(v), step).None? || Child(Normalized(v), step) == Some(Bool(true))
  {
    if v.Obj? && FreeForm(v.members) {
      assert ADDITIONAL in COMPOSING && ADDITIONAL !in v.members;
    }
  }

  /** Nothing is below a scalar. */
  lemma ScalarHasNone(path: seq<Step>)
    requires path != []
    ensures Find(Bool(true), path).None?
  {
  }
}
