/** What the normalizer of tools/genspec/main.go is for: after it, every object schema says what members
it takes, and it changes and counts exactly those that did not. */
module GenSpecPurpose {
  import opened Wrappers
  import opened Values
  import opened GenSpec

  // ---------- Object schemas that say nothing ----------

  /** The type keyword lets instances of this kind pass: it is its name, or a list that has its name
  (section 6.1.1 of JSON Schema Validation 2020-12). */
  ghost predicate Takes(type_: Value, kind: string) {
    type_ == Str(kind) || (type_.Arr? && exists i :: 0 <= i < |type_.items| && type_.items[i] == Str(kind))
  }

  /** Keywords that speak of an object's members, or combine other schemas. */
  const SPEAKING := {"properties", "patternProperties", "additionalProperties", "allOf", "anyOf", "oneOf", "$ref"}

  ghost predicate TakesObjects(schema: map<string, Value>) {
    "type" in schema && Takes(schema["type"], "object")
  }

  /** It takes objects and says nothing of their members. */
  ghost predicate Bare(schema: map<string, Value>) {
    TakesObjects(schema) && forall k :: k in SPEAKING ==> k !in schema
  }

  lemma BareIsFreeForm(schema: map<string, Value>)
    ensures Bare(schema) <==> FreeForm(schema)
  {
    forall k ensures k in SPEAKING <==> k in COMPOSING {
      SpeakingIsComposing(k);
    }
    if "type" in schema {
      TakesIsType(schema["type"]);
    }
  }

  lemma SpeakingIsComposing(k: string)
    ensures k in SPEAKING <==> k in COMPOSING
  {
  }

  lemma TakesIsType(t: Value)
    ensures Takes(t, "object") <==> IsObjectType(t)
  {
    if t.Arr? && Str("object") in t.items {
      var i :| 0 <= i < |t.items| && t.items[i] == Str("object");
      assert t.items[i] == Str("object");
    }
  }

  // ---------- At every path ----------

  /** Every object of the document keeps its members; one that took objects and said nothing of their
  members now takes any, and no other one gains or loses a member. */
  lemma EveryObjectAfter(v: Value, path: seq<Step>)
    requires Find(v, path).Some? && Find(v, path).value.Obj?
    ensures var m := Find(v, path).value.members; var after := Find(Normalized(v), path);
      && after.Some? && after.value.Obj?
      && (forall k :: k in m ==> k in after.value.members && after.value.members[k] == Normalized(m[k]))
      && (if Bare(m) then
            after.value.members.Keys == m.Keys + {"additionalProperties"} && after.value.members["additionalProperties"] == Bool(true)
          else after.value.members.Keys == m.Keys)
  {
    hide Bare, FreeForm;
    PathsAreKept(v, path);
    BareIsFreeForm(Find(v, path).value.members);
    AddedIsNew(Find(v, path).value);
  }

  lemma AddedIsNew(x: Value)
    requires x.Obj?
    ensures FreeForm(x.members) ==> ADDITIONAL !in x.members
  {
    assert ADDITIONAL in COMPOSING;
  }

  /** After the normalizer no object schema is bare, wherever it stands. */
  lemma NoneIsBare(v: Value, path: seq<Step>)
    requires Find(Normalized(v), path).Some? && Find(Normalized(v), path).value.Obj?
    ensures var m := Find(Normalized(v), path).value.members; TakesObjects(m) ==> exists k :: k in SPEAKING && k in m
  {
    hide FreeForm, Takes;
    var m := Find(Normalized(v), path).value.members;
    PathsAreKept(v, path);
    if Find(v, path).Some? {
      var x := Find(v, path).value;
      ScalarIsKept(x);
      NormalizedIsNotFreeForm(x);
      BareIsFreeForm(m);
    }
  }

  lemma ScalarIsKept(x: Value)
    ensures Normalized(x).Obj? ==> x.Obj? && Normalized(x).members == NormalizedMembers(x)
  {
  }

  // ---------- The count ----------

  /** The paths of the document that lead to a bare object schema. */
  ghost function BarePlaces(v: Value): set<seq<Step>>
    decreases v, 1
  {
    match v
    case Arr(items) => PlacesInItems(v, |items|)
    case Obj(members) => (if Bare(members) then {[]} else {}) + PlacesInMembers(v, members.Keys)
    case _ => {}
  }

  /** The paths that go on from one step. */
  ghost function After(step: Step, paths: set<seq<Step>>): set<seq<Step>> {
    set p | p in paths :: [step] + p
  }

  ghost function PlacesInItems(v: Value, n: nat): set<seq<Step>>
    requires v.Arr? && n <= |v.items|
    decreases v, 0, n
  {
    if n == 0 then {} else PlacesInItems(v, n - 1) + After(Index(n - 1), BarePlaces(v.items[n - 1]))
  }

  ghost function PlacesInMembers(v: Value, keys: set<string>): set<seq<Step>>
    requires v.Obj? && keys <= v.members.Keys
    decreases v, 0, |keys|
  {
    if keys == {} then {}
    else
      var k :| k in keys;
      After(Key(k), BarePlaces(v.members[k])) + PlacesInMembers(v, keys - {k})
  }

  lemma {:induction false} AfterSize(step: Step, paths: set<seq<Step>>)
    ensures |After(step, paths)| == |paths|
    decreases |paths|
  {
    if paths != {} {
      var p :| p in paths;
      AfterSize(step, paths - {p});
      assert After(step, paths) == After(step, paths - {p}) + {[step] + p};
      assert [step] + p !in After(step, paths - {p}) by {
        forall q | q in paths - {p} ensures [step] + q != [step] + p {
          assert ([step] + q)[1..] == q && ([step] + p)[1..] == p;
        }
      }
    } else {
      assert After(step, paths) == {};
    }
  }

  lemma AfterHas(step: Step, paths: set<seq<Step>>, path: seq<Step>)
    ensures path in After(step, paths) <==> path != [] && path[0] == step && path[1..] in paths
  {
    if path != [] && path[0] == step && path[1..] in paths {
      assert path == [step] + path[1..];
    }
  }

  lemma {:induction false} ItemPlaces(v: Value, n: nat, path: seq<Step>)
    requires v.Arr? && n <= |v.items|
    ensures path in PlacesInItems(v, n) <==>
      path != [] && path[0].Index? && path[0].i < n && path[1..] in BarePlaces(v.items[path[0].i])
  {
    hide After, BarePlaces;
    if n > 0 {
      ItemPlaces(v, n - 1, path);
      AfterHas(Index(n - 1), BarePlaces(v.items[n - 1]), path);
    }
  }

  lemma {:induction false} MemberPlaces(v: Value, keys: set<string>, path: seq<Step>)
    requires v.Obj? && keys <= v.members.Keys
    ensures path in PlacesInMembers(v, keys) <==>
      path != [] && path[0].Key? && path[0].name in keys && path[1..] in BarePlaces(v.members[path[0].name])
    decreases |keys|
  {
    hide After, BarePlaces;
    if keys != {} {
      var k :| k in keys && PlacesInMembers(v, keys) == After(Key(k), BarePlaces(v.members[k])) + PlacesInMembers(v, keys - {k});
      MemberPlaces(v, keys - {k}, path);
      AfterHas(Key(k), BarePlaces(v.members[k]), path);
    }
  }

  /** These are exactly those paths. */
  lemma {:induction false} PlacesAreBare(v: Value, path: seq<Step>)
    ensures path in BarePlaces(v) <==> Find(v, path).Some? && Find(v, path).value.Obj? && Bare(Find(v, path).value.members)
    decreases v
  {
    hide Bare, PlacesInItems, PlacesInMembers;
    match v
    case Arr(items) =>
      ItemPlaces(v, |items|, path);
      if path != [] && path[0].Index? && path[0].i < |items| {
        PlacesAreBare(items[path[0].i], path[1..]);
      }
    case Obj(members) =>
      MemberPlaces(v, members.Keys, path);
      if path != [] && path[0].Key? && path[0].name in members {
        PlacesAreBare(members[path[0].name], path[1..]);
      }
    case _ =>
  }

  lemma {:induction false} CountInItems(v: Value, n: nat)
    requires v.Arr? && n <= |v.items| && forall i :: 0 <= i < n ==> FreeForms(v.items[i]) == |BarePlaces(v.items[i])|
    ensures InItems(v, n) == |PlacesInItems(v, n)|
  {
    hide After, BarePlaces, FreeForms;
    if n > 0 {
      CountInItems(v, n - 1);
      var before, last := PlacesInItems(v, n - 1), After(Index(n - 1), BarePlaces(v.items[n - 1]));
      AfterSize(Index(n - 1), BarePlaces(v.items[n - 1]));
      forall path | path in before ensures path !in last {
        ItemPlaces(v, n - 1, path);
        AfterHas(Index(n - 1), BarePlaces(v.items[n - 1]), path);
      }
      assert |before + last| == |before| + |last|;
    }
  }

  lemma {:induction false} CountInMembers(v: Value, keys: set<string>)
    requires v.Obj? && keys <= v.members.Keys && forall k :: k in keys ==> FreeForms(v.members[k]) == |BarePlaces(v.members[k])|
    ensures InMembers(v, keys) == |PlacesInMembers(v, keys)|
    decreases |keys|
  {
    hide After, BarePlaces, FreeForms;
    if keys != {} {
      var k :| k in keys && PlacesInMembers(v, keys) == After(Key(k), BarePlaces(v.members[k])) + PlacesInMembers(v, keys - {k});
      CountAnyOrder(v, keys, k);
      CountInMembers(v, keys - {k});
      var first, rest := After(Key(k), BarePlaces(v.members[k])), PlacesInMembers(v, keys - {k});
      AfterSize(Key(k), BarePlaces(v.members[k]));
      forall path | path in first ensures path !in rest {
        MemberPlaces(v, keys - {k}, path);
        AfterHas(Key(k), BarePlaces(v.members[k]), path);
      }
      assert |first + rest| == |first| + |rest|;
    }
  }

  /** The number that the normalizer says is how many places have a bare object schema. */
  lemma {:induction false} CountIsPlaces(v: Value)
    ensures FreeForms(v) == |BarePlaces(v)|
    decreases v
  {
    hide Bare, FreeForm;
    match v
    case Arr(items) =>
      forall i | 0 <= i < |items| ensures FreeForms(items[i]) == |BarePlaces(items[i])| {
        CountIsPlaces(items[i]);
      }
      CountInItems(v, |items|);
    case Obj(members) =>
      forall k | k in members ensures FreeForms(members[k]) == |BarePlaces(members[k])| {
        CountIsPlaces(members[k]);
      }
      CountInMembers(v, members.Keys);
      BareIsFreeForm(members);
      MemberPlaces(v, members.Keys, []);
    case _ =>
  }
}
