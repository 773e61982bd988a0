/** What a schema accepts, by JSON Schema Core 2020-12, and what the normalizer of
tools/genspec/main.go changes of it. */
module SchemaMeaning {
  import opened Wrappers
  import opened Values
  import opened GenSpec

  /** What the meaning of a schema depends on besides itself: the document its references lead
  into, how a reference is written as a path (section 8.2.3.1), which names a pattern matches,
  which keywords only annotate (title, default, example, ...), what the others say that look at
  nothing but their own value and the instance (type, required, const, format, ...), and what
  minContains and maxContains say of a number of elements. */
  datatype Context = Context(
    document: Value,
    pathOf: string -> seq<Step>,
    matches: (string, string) -> bool,
    annotates: string -> bool,
    asserts: (string, Value, Value) -> bool,
    counted: (Option<Value>, Option<Value>, nat) -> bool)
  {
    function Target(reference: string): Option<Value> {
      Find(document, pathOf(reference))
    }
  }

  const UNEVALUATED := "unevaluatedProperties"
  const ONE_SCHEMA := [ADDITIONAL, UNEVALUATED, "propertyNames", "items", "unevaluatedItems", "contains", "not", "if",
                       "then", "else"]
  const SCHEMA_LISTS := ["allOf", "anyOf", "oneOf", "prefixItems"]
  const SCHEMA_MAPS := ["properties", "patternProperties", "dependentSchemas", "$defs", "definitions"]
  const BOUNDS := ["minContains", "maxContains"]

  /** What a keyword holds: schemas by name, a list of schemas, one schema, a reference to one, or
  anything else. */
  datatype Kind = MapOfSchemas | ListOfSchemas | OneSchema | Reference | Other

  function KindOf(k: string): Kind {
    if k in SCHEMA_MAPS then MapOfSchemas
    else if k in SCHEMA_LISTS then ListOfSchemas
    else if k in ONE_SCHEMA then OneSchema
    else if k == "$ref" then Reference
    else Other
  }

  lemma KindsOfSchemas()
    ensures KindOf("properties") == KindOf("patternProperties") == KindOf("dependentSchemas") == MapOfSchemas
    ensures KindOf("allOf") == KindOf("anyOf") == KindOf("oneOf") == KindOf("prefixItems") == ListOfSchemas
    ensures KindOf(ADDITIONAL) == KindOf(UNEVALUATED) == OneSchema
    ensures KindOf("if") == KindOf("then") == KindOf("else") == KindOf("contains") == OneSchema
    ensures KindOf("$ref") == Reference
  {
    hide KindOf;
    KindsOfLists();
    KindsOfOnes();
    KindsOfBranches();
    KindOfReference();
    assert KindOf("properties") == KindOf("patternProperties") == KindOf("dependentSchemas") == MapOfSchemas by {
      KindsOfMaps();
    }
  }

  lemma KindsOfMaps()
    ensures KindOf("properties") == KindOf("patternProperties") == KindOf("dependentSchemas") == MapOfSchemas
  {
  }

  lemma KindsOfLists()
    ensures KindOf("allOf") == KindOf("anyOf") == KindOf("oneOf") == KindOf("prefixItems") == ListOfSchemas
  {
  }

  lemma KindsOfOnes()
    ensures KindOf(ADDITIONAL) == KindOf(UNEVALUATED) == KindOf("contains") == OneSchema
  {
  }

  lemma KindsOfBranches()
    ensures KindOf("if") == KindOf("then") == KindOf("else") == OneSchema
  {
  }

  lemma KindOfReference()
    ensures KindOf("$ref") == Reference
  {
  }

  lemma KindsOfBounds()
    ensures KindOf("minContains") == KindOf("maxContains") == Other
  {
  }

  lemma KindsOfAssertions()
    ensures KindOf("type") == KindOf("const") == Other
  {
  }

  // ---------- Acceptance ----------

  /** The schema accepts the instance v. References are followed up to the given depth. */
  ghost predicate Accepts(c: Context, depth: nat, s: Value, v: Value)
    decreases depth, s, 9
  {
    match s
    case Bool(b) => b
    case Obj(members) => forall k :: k in members ==> Keyword(c, depth, s, k, v)
    case _ => true
  }

  /** The keyword k of the schema s holds of the instance v. */
  ghost predicate Keyword(c: Context, depth: nat, s: Value, k: string, v: Value)
    requires s.Obj? && k in s.members
    decreases depth, s, 8
  {
    match KindOf(k)
    case MapOfSchemas => s.members[k].Obj? ==> MapKeyword(c, depth, s.members[k], k, v)
    case ListOfSchemas => s.members[k].Arr? ==> ListKeyword(c, depth, s.members[k], k, v)
    case OneSchema => OneKeyword(c, depth, s, k, v)
    case Reference =>
      s.members[k].Str? && depth > 0 && c.Target(s.members[k].s).Some? ==>
        Accepts(c, depth - 1, c.Target(s.members[k].s).value, v)
    case Other => c.annotates(k) || c.asserts(k, s.members[k], v)
  }

  ghost predicate MapKeyword(c: Context, depth: nat, w: Value, k: string, v: Value)
    requires w.Obj?
    decreases depth, w, 10
  {
    if k == "properties" then
      v.Obj? ==> forall p :: p in w.members && p in v.members ==> Accepts(c, depth, w.members[p], v.members[p])
    else if k == "patternProperties" then
      v.Obj? ==> forall p, name :: p in w.members && name in v.members && c.matches(p, name) ==>
        Accepts(c, depth, w.members[p], v.members[name])
    else if k == "dependentSchemas" then
      v.Obj? ==> forall p :: p in w.members && p in v.members ==> Accepts(c, depth, w.members[p], v)
    else true
  }

  ghost predicate ListKeyword(c: Context, depth: nat, w: Value, k: string, v: Value)
    requires w.Arr?
    decreases depth, w, 10
  {
    if k == "allOf" then forall i :: 0 <= i < |w.items| ==> Accepts(c, depth, w.items[i], v)
    else if k == "anyOf" then exists i :: 0 <= i < |w.items| && Accepts(c, depth, w.items[i], v)
    else if k == "oneOf" then exists i :: 0 <= i < |w.items| && OnlyOne(c, depth, w, i, v)
    else v.Arr? ==> forall i :: 0 <= i < |w.items| && i < |v.items| ==> Accepts(c, depth, w.items[i], v.items[i])
  }

  /** Of the schemas in a list, the i-th one accepts v and no other does. */
  ghost predicate OnlyOne(c: Context, depth: nat, w: Value, i: nat, v: Value)
    requires w.Arr? && i < |w.items|
    decreases depth, w, 9
  {
    forall j :: 0 <= j < |w.items| ==> (Accepts(c, depth, w.items[j], v) <==> j == i)
  }

  /** The keywords that hold one schema: they also look at the keywords beside them. */
  ghost predicate OneKeyword(c: Context, depth: nat, s: Value, k: string, v: Value)
    requires s.Obj? && k in s.members
    decreases depth, s, 7
  {
    var w := s.members[k];
    if k == ADDITIONAL then
      // section 10.3.2.3: the members that properties and patternProperties do not speak of
      v.Obj? ==> forall name :: name in v.members && !Named(c, s, name) ==> Accepts(c, depth, w, v.members[name])
    else if k == UNEVALUATED then
      // section 11.3
      v.Obj? ==> forall name :: name in v.members && Key(name) !in Evaluated(c, depth, s, v) ==>
        Accepts(c, depth, w, v.members[name])
    else if k == "propertyNames" then
      v.Obj? ==> forall name :: name in v.members ==> Accepts(c, depth, w, Str(name))
    else if k == "items" then
      v.Arr? ==> forall i :: PrefixCount(s) <= i < |v.items| ==> Accepts(c, depth, w, v.items[i])
    else if k == "unevaluatedItems" then
      // section 11.2
      v.Arr? ==> forall i: nat :: i < |v.items| && Index(i) !in Evaluated(c, depth, s, v) ==>
        Accepts(c, depth, w, v.items[i])
    else if k == "contains" then
      v.Arr? ==> c.counted(Bound(s, "minContains"), Bound(s, "maxContains"), |Containing(c, depth, w, v)|)
    else if k == "not" then !Accepts(c, depth, w, v)
    else if k == "then" then "if" in s.members && Accepts(c, depth, s.members["if"], v) ==> Accepts(c, depth, w, v)
    else if k == "else" then "if" in s.members && !Accepts(c, depth, s.members["if"], v) ==> Accepts(c, depth, w, v)
    else true
  }

  /** properties or patternProperties of the schema speak of the name. */
  predicate Named(c: Context, s: Value, name: string)
    requires s.Obj?
  {
    || ("properties" in s.members && s.members["properties"].Obj? && name in s.members["properties"].members)
    || ("patternProperties" in s.members && s.members["patternProperties"].Obj?
        && exists p :: p in s.members["patternProperties"].members && c.matches(p, name))
  }

  /** How many elements prefixItems speaks of. */
  function PrefixCount(s: Value): nat
    requires s.Obj?
  {
    if "prefixItems" in s.members && s.members["prefixItems"].Arr? then |s.members["prefixItems"].items| else 0
  }

  function Bound(s: Value, k: string): Option<Value>
    requires s.Obj?
  {
    if k in s.members then Some(s.members[k]) else None
  }

  ghost function Containing(c: Context, depth: nat, w: Value, v: Value): set<nat>
    requires v.Arr?
    decreases depth, w, 10
  {
    set i: nat | i < |v.items| && Accepts(c, depth, w, v.items[i])
  }

  // ---------- What has been evaluated ----------

  /** The members or elements of v that the schema, or what it combines in place and accepts v,
  speaks of before its own unevaluated keywords have their turn. */
  ghost function Evaluated(c: Context, depth: nat, s: Value, v: Value): set<Step>
    requires s.Obj?
    decreases depth, s, 6
  {
    Own(c, s, v) + Contained(c, depth, s, v)
    + InList(c, depth, s, "allOf", v) + InList(c, depth, s, "anyOf", v) + InList(c, depth, s, "oneOf", v)
    + InBranches(c, depth, s, v) + InDependents(c, depth, s, v) + InTarget(c, depth, s, v)
  }

  function Own(c: Context, s: Value, v: Value): set<Step>
    requires s.Obj?
  {
    if v.Obj? then set name | name in v.members && (ADDITIONAL in s.members || Named(c, s, name)) :: Key(name)
    else if v.Arr? then set i: nat | i < |v.items| && ("items" in s.members || i < PrefixCount(s)) :: Index(i)
    else {}
  }

  ghost function Contained(c: Context, depth: nat, s: Value, v: Value): set<Step>
    requires s.Obj?
    decreases depth, s, 5
  {
    if "contains" in s.members && v.Arr? then set i | i in Containing(c, depth, s.members["contains"], v) :: Index(i) else {}
  }

  ghost function InList(c: Context, depth: nat, s: Value, k: string, v: Value): set<Step>
    requires s.Obj?
    decreases depth, s, 5
  {
    if k in s.members && s.members[k].Arr? then
      set i, step | 0 <= i < |s.members[k].items| && step in EvaluatedBy(c, depth, s.members[k].items[i], v) :: step
    else {}
  }

  ghost function InBranches(c: Context, depth: nat, s: Value, v: Value): set<Step>
    requires s.Obj?
    decreases depth, s, 5
  {
    if "if" !in s.members then {}
    else if Accepts(c, depth, s.members["if"], v) then
      EvaluatedBy(c, depth, s.members["if"], v)
      + if "then" in s.members then EvaluatedBy(c, depth, s.members["then"], v) else {}
    else if "else" in s.members then EvaluatedBy(c, depth, s.members["else"], v)
    else {}
  }

  ghost function InDependents(c: Context, depth: nat, s: Value, v: Value): set<Step>
    requires s.Obj?
    decreases depth, s, 5
  {
    if "dependentSchemas" in s.members && s.members["dependentSchemas"].Obj? && v.Obj? then
      var w := s.members["dependentSchemas"];
      set p, step | p in w.members && p in v.members && step in EvaluatedBy(c, depth, w.members[p], v) :: step
    else {}
  }

  ghost function InTarget(c: Context, depth: nat, s: Value, v: Value): set<Step>
    requires s.Obj?
    decreases depth, s, 5
  {
    if "$ref" in s.members && s.members["$ref"].Str? && depth > 0 && c.Target(s.members["$ref"].s).Some?
    then EvaluatedBy(c, depth - 1, c.Target(s.members["$ref"].s).value, v)
    else {}
  }

  /** What a schema combined in place adds: nothing if it does not accept v, everything if it has an
  unevaluated keyword of its own. */
  ghost function EvaluatedBy(c: Context, depth: nat, x: Value, v: Value): set<Step>
    decreases depth, x, 10
  {
    if !x.Obj? || !Accepts(c, depth, x, v) then {}
    else Evaluated(c, depth, x, v) + OwnUnevaluated(x, v)
  }

  function OwnUnevaluated(x: Value, v: Value): set<Step>
    requires x.Obj?
  {
    if v.Obj? && UNEVALUATED in x.members then set name | name in v.members :: Key(name)
    else if v.Arr? && "unevaluatedItems" in x.members then set i: nat | i < |v.items| :: Index(i)
    else {}
  }

  // ---------- Which schemas the normalizer may be run on ----------

  /** References that are used: those in plain lead to plain schemas, those in firm also to schemas
  with no free-form object in place. */
  datatype References = References(plain: set<string>, firm: set<string>)

  /** No free-form object in place: neither the schema nor anything it combines in place is one. */
  ghost predicate Still(r: References, s: Value)
    decreases s, 1
  {
    s.Obj? ==> !FreeForm(s.members) && forall k :: k in s.members ==> StillKeyword(r, s, k)
  }

  ghost predicate StillKeyword(r: References, s: Value, k: string)
    requires s.Obj? && k in s.members
    decreases s, 0
  {
    var w := s.members[k];
    if k in ["allOf", "anyOf", "oneOf"] then w.Arr? ==> forall i :: 0 <= i < |w.items| ==> Still(r, w.items[i])
    else if k in ["if", "then", "else"] then Still(r, w)
    else if k == "dependentSchemas" then w.Obj? ==> forall p :: p in w.members ==> Still(r, w.members[p])
    else if k == "$ref" then w.Str? ==> w.s in r.firm
    else true
  }

  /** A schema whose keywords hold schemas where they should, whose asserting keywords hold no
  free-form object (as a const may), and whose unevaluatedProperties have no free-form object in
  place or let everything pass. */
  ghost predicate Plain(c: Context, r: References, s: Value)
    decreases s, 2
  {
    s.Bool? || (PlainBelow(c, r, s) && (UNEVALUATED in s.members ==> Still(r, s) || LetsAllPass(s.members[UNEVALUATED])))
  }

  /** The schemas that accept everything at sight. */
  predicate LetsAllPass(w: Value) {
    w == Bool(true) || w == Obj(map[])
  }

  /** Plain but for a free-form object in place of its own unevaluatedProperties. */
  ghost predicate PlainBelow(c: Context, r: References, s: Value)
    decreases s, 1
  {
    s.Obj? && forall k :: k in s.members ==> PlainKeyword(c, r, s, k)
  }

  ghost predicate PlainKeyword(c: Context, r: References, s: Value, k: string)
    requires s.Obj? && k in s.members
    decreases s, 0
  {
    var w := s.members[k];
    match KindOf(k)
    case MapOfSchemas => w.Obj? && forall p :: p in w.members ==> Plain(c, r, w.members[p])
    case ListOfSchemas => w.Arr? && forall i :: 0 <= i < |w.items| ==> Plain(c, r, w.items[i])
    case OneSchema => Plain(c, r, w)
    case Reference => w.Str? && w.s in r.plain
    case Other => (c.annotates(k) && k !in BOUNDS) || FreeForms(w) == 0
  }

  ghost predicate Closed(c: Context, r: References) {
    && (forall x :: x in r.plain && c.Target(x).Some? ==> Plain(c, r, c.Target(x).value))
    && (forall x :: x in r.firm && c.Target(x).Some? ==> Still(r, c.Target(x).value))
  }

  function NormalizedContext(c: Context): Context {
    c.(document := Normalized(c.document))
  }

  // ---------- What the normalizer does to one schema ----------

  /** The members of a schema stay, each normalized; what is new is `additionalProperties: true`,
  on a free-form object. */
  lemma MembersOfNormalized(s: Value)
    requires s.Obj?
    ensures Normalized(s).Obj?
    ensures forall k :: k in s.members ==> k in Normalized(s).members && Normalized(s).members[k] == Normalized(s.members[k])
    ensures forall k :: k in Normalized(s).members && k !in s.members ==>
      k == ADDITIONAL && Normalized(s).members[k] == Bool(true) && FreeForm(s.members)
  {
    assert ADDITIONAL in COMPOSING;
  }

  lemma PlainIsSchema(c: Context, r: References, x: Value)
    requires Plain(c, r, x)
    ensures !IsObjectType(x)
  {
  }

  /** A map of schemas by name is not taken for a free-form object. */
  lemma SchemaMapIsKept(w: Value)
    requires w.Obj? && forall p :: p in w.members ==> !IsObjectType(w.members[p])
    ensures Normalized(w).Obj? && Normalized(w).members.Keys == w.members.Keys
    ensures forall p :: p in w.members ==> Normalized(w).members[p] == Normalized(w.members[p])
  {
  }

  lemma SchemaListIsKept(w: Value)
    requires w.Arr?
    ensures Normalized(w).Arr? && |Normalized(w).items| == |w.items|
    ensures forall i :: 0 <= i < |w.items| ==> Normalized(w).items[i] == Normalized(w.items[i])
  {
  }

  /** Where the schema has the keyword, it holds a list, or by name what is no type. */
  predicate Formed(s: Value, k: string)
    requires s.Obj?
  {
    k in s.members ==>
      match KindOf(k)
      case MapOfSchemas => s.members[k].Obj? && forall p :: p in s.members[k].members ==> !IsObjectType(s.members[k].members[p])
      case ListOfSchemas => s.members[k].Arr?
      case _ => true
  }

  lemma PlainIsFormed(c: Context, r: References, s: Value, k: string)
    requires PlainBelow(c, r, s)
    ensures Formed(s, k)
  {
    hide Plain, KindOf, IsObjectType;
    if k in s.members && KindOf(k) == MapOfSchemas {
      assert PlainKeyword(c, r, s, k);
      forall p | p in s.members[k].members ensures !IsObjectType(s.members[k].members[p]) {
        PlainIsSchema(c, r, s.members[k].members[p]);
      }
    }
  }

  lemma FormedMapStays(s: Value, k: string)
    requires s.Obj? && k in s.members && KindOf(k) == MapOfSchemas && Formed(s, k)
    ensures Normalized(s).Obj? && k in Normalized(s).members
    ensures s.members[k].Obj? && Normalized(s).members[k].Obj?
    ensures Normalized(s).members[k].members.Keys == s.members[k].members.Keys
    ensures forall p :: p in s.members[k].members ==>
      Normalized(s).members[k].members[p] == Normalized(s.members[k].members[p])
  {
    hide Normalized, NormalizedMembers, KindOf;
    MembersOfNormalized(s);
    SchemaMapIsKept(s.members[k]);
  }

  lemma FormedListStays(s: Value, k: string)
    requires s.Obj? && k in s.members && KindOf(k) == ListOfSchemas && Formed(s, k)
    ensures Normalized(s).Obj? && k in Normalized(s).members
    ensures s.members[k].Arr? && Normalized(s).members[k].Arr?
    ensures |Normalized(s).members[k].items| == |s.members[k].items|
    ensures forall i :: 0 <= i < |s.members[k].items| ==> Normalized(s).members[k].items[i] == Normalized(s.members[k].items[i])
  {
    hide Normalized, NormalizedMembers, KindOf;
    MembersOfNormalized(s);
    SchemaListIsKept(s.members[k]);
  }

  lemma MapKept(c: Context, r: References, s: Value, k: string)
    requires PlainBelow(c, r, s) && k in s.members && KindOf(k) == MapOfSchemas
    ensures Normalized(s).Obj?
    ensures s.members[k].Obj? && k in Normalized(s).members && Normalized(s).members[k].Obj?
    ensures Normalized(s).members[k].members.Keys == s.members[k].members.Keys
    ensures forall p :: p in s.members[k].members ==>
      Plain(c, r, s.members[k].members[p])
      && Normalized(s).members[k].members[p] == Normalized(s.members[k].members[p])
  {
    hide Plain, Normalized, NormalizedMembers, KindOf;
    assert PlainKeyword(c, r, s, k);
    PlainIsFormed(c, r, s, k);
    FormedMapStays(s, k);
  }

  lemma ListKept(c: Context, r: References, s: Value, k: string)
    requires PlainBelow(c, r, s) && k in s.members && KindOf(k) == ListOfSchemas
    ensures Normalized(s).Obj?
    ensures s.members[k].Arr? && k in Normalized(s).members && Normalized(s).members[k].Arr?
    ensures |Normalized(s).members[k].items| == |s.members[k].items|
    ensures forall i :: 0 <= i < |s.members[k].items| ==>
      Plain(c, r, s.members[k].items[i])
      && Normalized(s).members[k].items[i] == Normalized(s.members[k].items[i])
  {
    hide Plain, Normalized, NormalizedMembers, KindOf;
    assert PlainKeyword(c, r, s, k);
    PlainIsFormed(c, r, s, k);
    FormedListStays(s, k);
  }

  lemma OneKept(c: Context, r: References, s: Value, k: string)
    requires PlainBelow(c, r, s) && k in s.members && KindOf(k) == OneSchema
    ensures Normalized(s).Obj?
    ensures Plain(c, r, s.members[k]) && k in Normalized(s).members
    ensures Normalized(s).members[k] == Normalized(s.members[k])
  {
    hide Plain, Normalized, NormalizedMembers, KindOf;
    assert PlainKeyword(c, r, s, k);
    MembersOfNormalized(s);
  }

  /** Which keywords of a kind a schema has. */
  lemma SameKeys(s: Value, k: string)
    requires s.Obj? && k != ADDITIONAL
    ensures Normalized(s).Obj? && (k in Normalized(s).members <==> k in s.members)
  {
    hide Normalized, NormalizedMembers;
    MembersOfNormalized(s);
  }

  /** What a schema says of names and positions: the same, whatever the schemas below it mean. */
  lemma NamedAlike(c: Context, s: Value, name: string)
    requires s.Obj? && Formed(s, "properties") && Formed(s, "patternProperties")
    ensures Normalized(s).Obj? && Named(NormalizedContext(c), Normalized(s), name) == Named(c, s, name)
  {
    hide Formed, Normalized, NormalizedMembers, KindOf;
    KindsOfSchemas();
    SameKeys(s, "properties");
    SameKeys(s, "patternProperties");
    if "properties" in s.members {
      FormedMapStays(s, "properties");
    }
    if "patternProperties" in s.members {
      FormedMapStays(s, "patternProperties");
    }
  }

  lemma PrefixAlike(s: Value)
    requires s.Obj? && Formed(s, "prefixItems")
    ensures Normalized(s).Obj? && PrefixCount(Normalized(s)) == PrefixCount(s)
  {
    hide Formed, Normalized, NormalizedMembers, KindOf;
    KindsOfSchemas();
    SameKeys(s, "prefixItems");
    if "prefixItems" in s.members {
      FormedListStays(s, "prefixItems");
    }
  }

  lemma SpeaksAlike(c: Context, s: Value)
    requires s.Obj? && Formed(s, "properties") && Formed(s, "patternProperties") && Formed(s, "prefixItems")
    ensures Normalized(s).Obj?
    ensures forall name :: Named(NormalizedContext(c), Normalized(s), name) == Named(c, s, name)
    ensures PrefixCount(Normalized(s)) == PrefixCount(s)
  {
    hide Formed, Normalized, NormalizedMembers, Named, PrefixCount;
    PrefixAlike(s);
    forall name ensures Named(NormalizedContext(c), Normalized(s), name) == Named(c, s, name) {
      NamedAlike(c, s, name);
    }
  }

  lemma PlainSpeaksAlike(c: Context, r: References, s: Value)
    requires PlainBelow(c, r, s)
    ensures Normalized(s).Obj?
    ensures forall name :: Named(NormalizedContext(c), Normalized(s), name) == Named(c, s, name)
    ensures PrefixCount(Normalized(s)) == PrefixCount(s)
  {
    hide Formed, PlainKeyword, Normalized, Named, PrefixCount;
    PlainIsFormed(c, r, s, "properties");
    PlainIsFormed(c, r, s, "patternProperties");
    PlainIsFormed(c, r, s, "prefixItems");
    SpeaksAlike(c, s);
  }

  lemma BoundAlike(c: Context, r: References, s: Value, k: string)
    requires s.Obj? && k in BOUNDS && (k in s.members ==> PlainKeyword(c, r, s, k))
    ensures Normalized(s).Obj? && Bound(Normalized(s), k) == Bound(s, k)
  {
    hide Normalized, NormalizedMembers, KindOf, FreeForms;
    KindsOfBounds();
    SameKeys(s, k);
    MembersOfNormalized(s);
    if k in s.members {
      UnchangedExactlyWhenNone(s.members[k]);
    }
  }

  // ---------- The same acceptance below gives the same keyword ----------

  lemma MapsAlike(c: Context, d: Context, depth: nat, w: Value, x: Value, k: string, v: Value)
    requires w.Obj? && x.Obj? && x.members.Keys == w.members.Keys && d.matches == c.matches
    requires forall p, u :: p in w.members ==> Accepts(d, depth, x.members[p], u) == Accepts(c, depth, w.members[p], u)
    ensures MapKeyword(d, depth, x, k, v) == MapKeyword(c, depth, w, k, v)
  {
    hide Accepts;
  }

  lemma ListsAlike(c: Context, d: Context, depth: nat, w: Value, x: Value, k: string, v: Value)
    requires w.Arr? && x.Arr? && |x.items| == |w.items|
    requires forall i, u :: 0 <= i < |w.items| ==> Accepts(d, depth, x.items[i], u) == Accepts(c, depth, w.items[i], u)
    ensures ListKeyword(d, depth, x, k, v) == ListKeyword(c, depth, w, k, v)
  {
    hide Accepts;
    assert forall i | 0 <= i < |w.items| :: OnlyOne(d, depth, x, i, v) == OnlyOne(c, depth, w, i, v);
  }

  /** The two schemas are the same to a keyword that holds one schema, but for what is evaluated. */
  ghost predicate BesideAlike(c: Context, d: Context, depth: nat, s: Value, t: Value, v: Value)
    requires s.Obj? && t.Obj?
  {
    && (forall name :: Named(d, t, name) == Named(c, s, name))
    && PrefixCount(t) == PrefixCount(s)
    && Bound(t, "minContains") == Bound(s, "minContains") && Bound(t, "maxContains") == Bound(s, "maxContains")
    && ("if" in t.members <==> "if" in s.members)
    && ("if" in s.members ==> Accepts(d, depth, t.members["if"], v) == Accepts(c, depth, s.members["if"], v))
    && d.counted == c.counted
  }

  /** a and b hold the same elements, b all members of a, and the same members if the schema is still. */
  ghost predicate Grows(a: set<Step>, b: set<Step>, still: bool) {
    && a <= b
    && (forall step :: step in b && step.Index? ==> step in a)
    && (still ==> a == b)
  }

  lemma ContainingAlike(c: Context, d: Context, depth: nat, w: Value, x: Value, v: Value)
    requires v.Arr? && forall u :: Accepts(d, depth, x, u) == Accepts(c, depth, w, u)
    ensures Containing(d, depth, x, v) == Containing(c, depth, w, v)
  {
    hide Accepts;
  }

  lemma OnesAlike(c: Context, d: Context, depth: nat, s: Value, t: Value, k: string, v: Value)
    requires s.Obj? && t.Obj? && k in s.members && k in t.members && BesideAlike(c, d, depth, s, t, v)
    requires forall u :: Accepts(d, depth, t.members[k], u) == Accepts(c, depth, s.members[k], u)
    requires k == UNEVALUATED || k == "unevaluatedItems" ==>
      Grows(Evaluated(c, depth, s, v), Evaluated(d, depth, t, v), k == UNEVALUATED)
    ensures OneKeyword(d, depth, t, k, v) == OneKeyword(c, depth, s, k, v)
  {
    hide Accepts, Evaluated, Named, PrefixCount, Bound, Containing;
    if v.Arr? {
      ContainingAlike(c, d, depth, s.members[k], t.members[k], v);
    }
  }

  // ---------- The normalizer keeps the meaning of a plain schema ----------

  /** The normalized schema accepts the same instances, also where references lead into the
  normalized document. */
  lemma {:induction false} SameMeaning(c: Context, r: References, depth: nat, s: Value, v: Value)
    requires Plain(c, r, s) && Closed(c, r)
    ensures Accepts(NormalizedContext(c), depth, Normalized(s), v) == Accepts(c, depth, s, v)
    decreases depth, s, 20
  {
    if s.Obj? {
      hide Plain, PlainKeyword, Closed, Normalized, NormalizedMembers, Still;
      var d, t := NormalizedContext(c), Normalized(s);
      MembersOfNormalized(s);
      forall k | k in s.members ensures Keyword(d, depth, t, k, v) == Keyword(c, depth, s, k, v) {
        PlainUnfolds(c, r, s);
        SameKeyword(c, r, depth, s, k, v);
      }
      forall k | k in t.members && k !in s.members ensures Keyword(d, depth, t, k, v) {
        AdditionalTrueHolds(d, depth, t, v);
      }
      assert Accepts(d, depth, t, v) <==> forall k :: k in t.members ==> Keyword(d, depth, t, k, v);
    }
  }

  lemma PlainUnfolds(c: Context, r: References, s: Value)
    requires Plain(c, r, s) && s.Obj?
    ensures PlainBelow(c, r, s)
    ensures UNEVALUATED in s.members ==> Still(r, s) || LetsAllPass(s.members[UNEVALUATED])
  {
  }

  /** additionalProperties: true holds of every instance: it is the default. */
  lemma AdditionalTrueHolds(c: Context, depth: nat, s: Value, v: Value)
    requires s.Obj? && ADDITIONAL in s.members && s.members[ADDITIONAL] == Bool(true)
    ensures Keyword(c, depth, s, ADDITIONAL, v)
  {
    hide KindOf, Named, Evaluated;
    KindsOfSchemas();
    assert forall u :: Accepts(c, depth, Bool(true), u);
    assert OneKeyword(c, depth, s, ADDITIONAL, v);
  }

  /** unevaluatedProperties that let all pass hold of every instance, whatever is evaluated. */
  lemma AllPassing(c: Context, depth: nat, s: Value, v: Value)
    requires s.Obj? && UNEVALUATED in s.members && LetsAllPass(s.members[UNEVALUATED])
    ensures OneKeyword(c, depth, s, UNEVALUATED, v)
    ensures Normalized(s).Obj? && UNEVALUATED in Normalized(s).members
    ensures Normalized(s).members[UNEVALUATED] == s.members[UNEVALUATED]
  {
    var w := s.members[UNEVALUATED];
    assert Normalized(w) == w by {
      assert w.Obj? ==> NormalizedMembers(w) == w.members;
    }
    MembersOfNormalized(s);
    assert forall u :: Accepts(c, depth, w, u);
    hide Evaluated, Named;
  }

  /** A keyword says the same afterwards, an unevaluatedProperties if the schema is still or the
  keyword lets all pass. */
  lemma SameKeyword(c: Context, r: References, depth: nat, s: Value, k: string, v: Value)
    requires PlainBelow(c, r, s) && Closed(c, r) && k in s.members
    requires k == UNEVALUATED ==> Still(r, s) || LetsAllPass(s.members[k])
    ensures Normalized(s).Obj? && k in Normalized(s).members
    ensures Keyword(NormalizedContext(c), depth, Normalized(s), k, v) == Keyword(c, depth, s, k, v)
    decreases depth, s, 18
  {
    hide Plain, PlainKeyword, Closed, Normalized, NormalizedMembers, Still, KindOf, MapKeyword, ListKeyword, OneKeyword, Accepts,
         Context.Target;
    MembersOfNormalized(s);
    match KindOf(k)
    case MapOfSchemas => SameInMap(c, r, depth, s, k, v);
    case ListOfSchemas => SameInList(c, r, depth, s, k, v);
    case OneSchema => SameInOne(c, r, depth, s, k, v);
    case Reference => SameThroughReference(c, r, depth, s, k, v);
    case Other => OtherKept(c, r, s, k);
  }

  lemma OtherKept(c: Context, r: References, s: Value, k: string)
    requires s.Obj? && k in s.members && KindOf(k) == Other && PlainKeyword(c, r, s, k)
    ensures c.annotates(k) || Normalized(s.members[k]) == s.members[k]
  {
    hide KindOf, FreeForms, Normalized;
    UnchangedExactlyWhenNone(s.members[k]);
  }

  lemma SameInMap(c: Context, r: References, depth: nat, s: Value, k: string, v: Value)
    requires PlainBelow(c, r, s) && Closed(c, r) && k in s.members && KindOf(k) == MapOfSchemas
    ensures s.members[k].Obj? && k in Normalized(s).members && Normalized(s).members[k].Obj?
    ensures MapKeyword(NormalizedContext(c), depth, Normalized(s).members[k], k, v) == MapKeyword(c, depth, s.members[k], k, v)
    decreases depth, s, 17
  {
    hide Plain, PlainKeyword, Closed, Normalized, NormalizedMembers, KindOf, MapKeyword, Accepts;
    MapKept(c, r, s, k);
    var w := s.members[k];
    forall p, u | p in w.members
      ensures Accepts(NormalizedContext(c), depth, Normalized(s).members[k].members[p], u) == Accepts(c, depth, w.members[p], u)
    {
      SameMeaning(c, r, depth, w.members[p], u);
    }
    MapsAlike(c, NormalizedContext(c), depth, w, Normalized(s).members[k], k, v);
  }

  lemma SameInList(c: Context, r: References, depth: nat, s: Value, k: string, v: Value)
    requires PlainBelow(c, r, s) && Closed(c, r) && k in s.members && KindOf(k) == ListOfSchemas
    ensures s.members[k].Arr? && k in Normalized(s).members && Normalized(s).members[k].Arr?
    ensures ListKeyword(NormalizedContext(c), depth, Normalized(s).members[k], k, v) == ListKeyword(c, depth, s.members[k], k, v)
    decreases depth, s, 17
  {
    hide Plain, PlainKeyword, Closed, Normalized, NormalizedMembers, KindOf, ListKeyword, Accepts;
    ListKept(c, r, s, k);
    var w := s.members[k];
    forall i, u | 0 <= i < |w.items|
      ensures Accepts(NormalizedContext(c), depth, Normalized(s).members[k].items[i], u) == Accepts(c, depth, w.items[i], u)
    {
      SameMeaning(c, r, depth, w.items[i], u);
    }
    ListsAlike(c, NormalizedContext(c), depth, w, Normalized(s).members[k], k, v);
  }

  /** The one schema that a keyword holds, on every instance. */
  lemma SameInside(c: Context, r: References, depth: nat, s: Value, k: string)
    requires PlainBelow(c, r, s) && Closed(c, r) && k in s.members && KindOf(k) == OneSchema
    ensures Normalized(s).Obj? && k in Normalized(s).members
    ensures forall u :: Accepts(NormalizedContext(c), depth, Normalized(s).members[k], u) == Accepts(c, depth, s.members[k], u)
    decreases depth, s, 14
  {
    hide Plain, PlainKeyword, Closed, Normalized, NormalizedMembers, KindOf, Accepts;
    OneKept(c, r, s, k);
    forall u ensures Accepts(NormalizedContext(c), depth, Normalized(s).members[k], u) == Accepts(c, depth, s.members[k], u) {
      SameMeaning(c, r, depth, s.members[k], u);
    }
  }

  lemma SameBeside(c: Context, r: References, depth: nat, s: Value, v: Value)
    requires PlainBelow(c, r, s) && Closed(c, r)
    ensures Normalized(s).Obj? && BesideAlike(c, NormalizedContext(c), depth, s, Normalized(s), v)
    decreases depth, s, 15
  {
    hide PlainKeyword, Closed, Normalized, NormalizedMembers, KindOf, Accepts, Named, PrefixCount, Bound;
    KindsOfSchemas();
    MembersOfNormalized(s);
    PlainSpeaksAlike(c, r, s);
    BoundAlike(c, r, s, "minContains");
    BoundAlike(c, r, s, "maxContains");
    SameKeys(s, "if");
    if "if" in s.members {
      SameInside(c, r, depth, s, "if");
    }
  }

  lemma SameInOne(c: Context, r: References, depth: nat, s: Value, k: string, v: Value)
    requires PlainBelow(c, r, s) && Closed(c, r) && k in s.members && KindOf(k) == OneSchema
    requires k == UNEVALUATED ==> Still(r, s) || LetsAllPass(s.members[k])
    ensures Normalized(s).Obj? && k in Normalized(s).members
    ensures OneKeyword(NormalizedContext(c), depth, Normalized(s), k, v) == OneKeyword(c, depth, s, k, v)
    decreases depth, s, 17
  {
    hide PlainKeyword, Closed, Normalized, NormalizedMembers, KindOf, Accepts, OneKeyword, BesideAlike, Evaluated, Still,
         LetsAllPass;
    if k == UNEVALUATED && LetsAllPass(s.members[k]) {
      AllPassing(c, depth, s, v);
      AllPassing(NormalizedContext(c), depth, Normalized(s), v);
    } else {
      SameInside(c, r, depth, s, k);
      SameBeside(c, r, depth, s, v);
      EvaluatedGrows(c, r, depth, s, v);
      OnesAlike(c, NormalizedContext(c), depth, s, Normalized(s), k, v);
    }
  }

  lemma PlainReference(c: Context, r: References, s: Value, k: string)
    requires PlainBelow(c, r, s) && k in s.members && KindOf(k) == Reference
    ensures var w := s.members[k]; w.Str? && w.s in r.plain && Normalized(w) == w
  {
    hide KindOf;
    assert PlainKeyword(c, r, s, k);
  }

  /** A reference leads to the normalized schema; one that led nowhere may lead to `true`. */
  lemma TargetOfNormalized(c: Context, reference: string)
    ensures var after := NormalizedContext(c).Target(reference);
      if c.Target(reference).Some? then after == Some(Normalized(c.Target(reference).value))
      else after == None || after == Some(Bool(true))
  {
    PathsAreKept(c.document, c.pathOf(reference));
  }

  /** What a reference says. */
  ghost predicate Follows(c: Context, depth: nat, reference: string, v: Value) {
    depth > 0 && c.Target(reference).Some? ==> Accepts(c, depth - 1, c.Target(reference).value, v)
  }

  lemma SameThroughReference(c: Context, r: References, depth: nat, s: Value, k: string, v: Value)
    requires PlainBelow(c, r, s) && Closed(c, r) && k in s.members && KindOf(k) == Reference
    ensures k in Normalized(s).members && Normalized(s).members[k] == s.members[k] && s.members[k].Str?
    ensures Follows(NormalizedContext(c), depth, s.members[k].s, v) == Follows(c, depth, s.members[k].s, v)
    decreases depth, s, 17
  {
    hide PlainKeyword, Normalized, NormalizedMembers, KindOf, Plain, Still, Context.Target, NormalizedContext;
    PlainReference(c, r, s, k);
    MembersOfNormalized(s);
    var reference := s.members[k].s;
    TargetOfNormalized(c, reference);
    if depth > 0 {
      if c.Target(reference).Some? {
        SameMeaning(c, r, depth - 1, c.Target(reference).value, v);
      } else {
        assert Accepts(NormalizedContext(c), depth - 1, Bool(true), v);
      }
    }
  }

  // ---------- What the normalizer lets a schema evaluate ----------

  lemma OwnGrows(c: Context, r: References, s: Value, v: Value)
    requires PlainBelow(c, r, s)
    ensures Normalized(s).Obj?
    ensures Grows(Own(c, s, v), Own(NormalizedContext(c), Normalized(s), v), Still(r, s))
  {
    hide PlainKeyword, Normalized, NormalizedMembers, Named, PrefixCount, FreeForm, StillKeyword, NormalizedContext;
    MembersOfNormalized(s);
    SameKeys(s, "items");
    PlainSpeaksAlike(c, r, s);
  }

  lemma ContainedSame(c: Context, r: References, depth: nat, s: Value, v: Value)
    requires PlainBelow(c, r, s) && Closed(c, r)
    ensures Normalized(s).Obj?
    ensures Contained(NormalizedContext(c), depth, Normalized(s), v) == Contained(c, depth, s, v)
    decreases depth, s, 15
  {
    hide PlainKeyword, Normalized, NormalizedMembers, Accepts, KindOf, Closed, Containing;
    KindsOfSchemas();
    SameKeys(s, "contains");
    if "contains" in s.members && v.Arr? {
      SameInside(c, r, depth, s, "contains");
      ContainingAlike(c, NormalizedContext(c), depth, s.members["contains"], Normalized(s).members["contains"], v);
    }
  }

  /** A schema combined in place. */
  lemma EvaluatedByGrows(c: Context, r: References, depth: nat, x: Value, v: Value)
    requires Plain(c, r, x) && Closed(c, r)
    ensures Grows(EvaluatedBy(c, depth, x, v), EvaluatedBy(NormalizedContext(c), depth, Normalized(x), v), Still(r, x))
    decreases depth, x, 21
  {
    hide Plain, PlainKeyword, Closed, Normalized, NormalizedMembers, Accepts, Evaluated, Still, OwnUnevaluated;
    SameMeaning(c, r, depth, x, v);
    if x.Obj? {
      PlainUnfolds(c, r, x);
      MembersOfNormalized(x);
      EvaluatedGrows(c, r, depth, x, v);
      OwnUnevaluatedSame(x, v);
    } else {
      ScalarStays(x);
    }
  }

  lemma ScalarStays(x: Value)
    requires !x.Obj?
    ensures !Normalized(x).Obj?
  {
  }

  lemma OwnUnevaluatedSame(x: Value, v: Value)
    requires x.Obj?
    ensures Normalized(x).Obj? && OwnUnevaluated(Normalized(x), v) == OwnUnevaluated(x, v)
  {
    hide Normalized;
    SameKeys(x, UNEVALUATED);
    SameKeys(x, "unevaluatedItems");
  }

  lemma StillBelow(r: References, s: Value, k: string)
    requires s.Obj? && k in s.members && Still(r, s)
    ensures StillKeyword(r, s, k)
  {
  }

  lemma InListGrows(c: Context, r: References, depth: nat, s: Value, k: string, v: Value)
    requires PlainBelow(c, r, s) && Closed(c, r) && k in ["allOf", "anyOf", "oneOf"]
    ensures Normalized(s).Obj?
    ensures Grows(InList(c, depth, s, k, v), InList(NormalizedContext(c), depth, Normalized(s), k, v), Still(r, s))
    decreases depth, s, 15
  {
    hide Plain, PlainKeyword, Closed, Normalized, NormalizedMembers, KindOf, EvaluatedBy, Still;
    KindsOfSchemas();
    SameKeys(s, k);
    if k in s.members {
      ListKept(c, r, s, k);
      var w, x := s.members[k].items, Normalized(s).members[k].items;
      var d := NormalizedContext(c);
      if Still(r, s) {
        StillBelow(r, s, k);
      }
      forall i | 0 <= i < |w|
        ensures Grows(EvaluatedBy(c, depth, w[i], v), EvaluatedBy(d, depth, x[i], v), Still(r, s))
      {
        EvaluatedByGrows(c, r, depth, w[i], v);
      }
      hide StillKeyword;
      assert InList(c, depth, s, k, v) <= InList(d, depth, Normalized(s), k, v);
    }
  }

  lemma InBranchesGrows(c: Context, r: References, depth: nat, s: Value, v: Value)
    requires PlainBelow(c, r, s) && Closed(c, r)
    ensures Normalized(s).Obj?
    ensures Grows(InBranches(c, depth, s, v), InBranches(NormalizedContext(c), depth, Normalized(s), v), Still(r, s))
    decreases depth, s, 15
  {
    hide Plain, PlainKeyword, Closed, Normalized, NormalizedMembers, KindOf, EvaluatedBy, Accepts, Still;
    KindsOfSchemas();
    SameKeys(s, "if");
    SameKeys(s, "then");
    SameKeys(s, "else");
    if "if" in s.members {
      SameInside(c, r, depth, s, "if");
      BranchGrows(c, r, depth, s, "if", v);
    }
    if "then" in s.members {
      BranchGrows(c, r, depth, s, "then", v);
    }
    if "else" in s.members {
      BranchGrows(c, r, depth, s, "else", v);
    }
  }

  lemma BranchGrows(c: Context, r: References, depth: nat, s: Value, k: string, v: Value)
    requires PlainBelow(c, r, s) && Closed(c, r) && k in s.members && k in ["if", "then", "else"]
    ensures Normalized(s).Obj? && k in Normalized(s).members
    ensures Grows(EvaluatedBy(c, depth, s.members[k], v),
                  EvaluatedBy(NormalizedContext(c), depth, Normalized(s).members[k], v), Still(r, s))
    decreases depth, s, 14
  {
    hide Plain, PlainKeyword, Closed, Normalized, NormalizedMembers, KindOf, EvaluatedBy, Still;
    KindsOfSchemas();
    OneKept(c, r, s, k);
    EvaluatedByGrows(c, r, depth, s.members[k], v);
    if Still(r, s) {
      StillBelow(r, s, k);
    }
  }

  lemma InDependentsGrows(c: Context, r: References, depth: nat, s: Value, v: Value)
    requires PlainBelow(c, r, s) && Closed(c, r)
    ensures Normalized(s).Obj?
    ensures Grows(InDependents(c, depth, s, v), InDependents(NormalizedContext(c), depth, Normalized(s), v), Still(r, s))
    decreases depth, s, 15
  {
    hide Plain, PlainKeyword, Closed, Normalized, NormalizedMembers, KindOf, EvaluatedBy, Still;
    KindsOfSchemas();
    SameKeys(s, "dependentSchemas");
    if "dependentSchemas" in s.members && v.Obj? {
      MapKept(c, r, s, "dependentSchemas");
      var w, x := s.members["dependentSchemas"].members, Normalized(s).members["dependentSchemas"].members;
      var d := NormalizedContext(c);
      if Still(r, s) {
        StillBelow(r, s, "dependentSchemas");
      }
      forall p | p in w
        ensures Grows(EvaluatedBy(c, depth, w[p], v), EvaluatedBy(d, depth, x[p], v), Still(r, s))
      {
        EvaluatedByGrows(c, r, depth, w[p], v);
      }
      hide StillKeyword;
    }
  }

  lemma InTargetGrows(c: Context, r: References, depth: nat, s: Value, v: Value)
    requires PlainBelow(c, r, s) && Closed(c, r)
    ensures Normalized(s).Obj?
    ensures Grows(InTarget(c, depth, s, v), InTarget(NormalizedContext(c), depth, Normalized(s), v), Still(r, s))
    decreases depth, s, 15
  {
    hide Plain, PlainKeyword, Normalized, NormalizedMembers, KindOf, Still, Context.Target, NormalizedContext;
    KindsOfSchemas();
    SameKeys(s, "$ref");
    if "$ref" in s.members {
      MembersOfNormalized(s);
      PlainReference(c, r, s, "$ref");
      var reference := s.members["$ref"].s;
      TargetOfNormalized(c, reference);
      if Still(r, s) {
        StillBelow(r, s, "$ref");
      }
      if depth > 0 && c.Target(reference).Some? {
        EvaluatedByGrows(c, r, depth - 1, c.Target(reference).value, v);
      }
    }
  }

  /** If all schemas below it are plain, what a schema evaluates can only grow, by members only, and
  not at all if it is still. */
  lemma EvaluatedGrows(c: Context, r: References, depth: nat, s: Value, v: Value)
    requires PlainBelow(c, r, s) && Closed(c, r)
    ensures Normalized(s).Obj?
    ensures Grows(Evaluated(c, depth, s, v), Evaluated(NormalizedContext(c), depth, Normalized(s), v), Still(r, s))
    decreases depth, s, 16
  {
    hide PlainBelow, Closed, Normalized, NormalizedMembers, Still, Own, Contained, InList, InBranches, InDependents, InTarget;
    OwnGrows(c, r, s, v);
    ContainedSame(c, r, depth, s, v);
    InListGrows(c, r, depth, s, "allOf", v);
    InListGrows(c, r, depth, s, "anyOf", v);
    InListGrows(c, r, depth, s, "oneOf", v);
    InBranchesGrows(c, r, depth, s, v);
    InDependentsGrows(c, r, depth, s, v);
    InTargetGrows(c, r, depth, s, v);
  }

  function ClosedObject(t: Value, properties: map<string, Value>, w: Value): Value {
    Obj(map["type" := t, "properties" := Obj(properties), UNEVALUATED := w])
  }

  lemma ClosedObjectMembers(t: Value, properties: map<string, Value>, w: Value)
    ensures ClosedObject(t, properties, w).Obj?
    ensures var m := ClosedObject(t, properties, w).members;
      && (forall k :: k in m ==> k == "type" || k == "properties" || k == UNEVALUATED)
      && "type" in m && "properties" in m && UNEVALUATED in m
      && m["type"] == t && m["properties"] == Obj(properties) && m[UNEVALUATED] == w
  {
  }

  lemma ClosedIsNotFree(t: Value, properties: map<string, Value>, w: Value)
    ensures ClosedObject(t, properties, w).Obj?
    ensures !FreeForm(ClosedObject(t, properties, w).members)
  {
    hide ClosedObject;
    ClosedObjectMembers(t, properties, w);
    assert "properties" in COMPOSING;
  }

  lemma OthersAreStill(r: References, s: Value, k: string)
    requires s.Obj? && k in s.members && (k == "type" || k == "properties" || k == UNEVALUATED)
    ensures StillKeyword(r, s, k)
  {
    hide Still;
  }

  /** An object that names its members and shuts out all others is plain: the normalizer does not
  touch it. */
  lemma ClosedObjectIsPlain(c: Context, r: References, t: Value, properties: map<string, Value>, w: Value)
    requires FreeForms(t) == 0 && Plain(c, r, w) && forall p :: p in properties ==> Plain(c, r, properties[p])
    ensures Plain(c, r, ClosedObject(t, properties, w))
  {
    hide KindOf, Plain, FreeForm, StillKeyword, ClosedObject, FreeForms;
    var s := ClosedObject(t, properties, w);
    ClosedObjectMembers(t, properties, w);
    ClosedIsNotFree(t, properties, w);
    KindsOfSchemas();
    KindsOfAssertions();
    forall k | k in s.members ensures PlainKeyword(c, r, s, k) && StillKeyword(r, s, k) {
      OthersAreStill(r, s, k);
    }
    hide PlainKeyword;
    ClosedIsPlain(c, r, s);
  }

  lemma ClosedIsPlain(c: Context, r: References, s: Value)
    requires PlainBelow(c, r, s) && Still(r, s)
    ensures Plain(c, r, s)
  {
  }

  // ---------- unevaluatedProperties with a free-form object in place ----------

  /** The normalized schema means the same. */
  ghost predicate Kept(c: Context, depth: nat, s: Value) {
    forall v :: Accepts(NormalizedContext(c), depth, Normalized(s), v) == Accepts(c, depth, s, v)
  }

  ghost predicate AcceptsAll(c: Context, depth: nat, w: Value) {
    forall x :: Accepts(c, depth, w, x)
  }

  /** All keywords hold but for unevaluatedProperties. */
  ghost predicate OthersHold(c: Context, depth: nat, s: Value, v: Value)
    requires s.Obj?
  {
    forall k :: k in s.members && k != UNEVALUATED ==> Keyword(c, depth, s, k, v)
  }

  /** w accepts the members that only the normalized schema lets be evaluated. */
  ghost predicate NewlyEvaluatedPass(c: Context, depth: nat, s: Value, v: Value)
    requires s.Obj? && UNEVALUATED in s.members
  {
    v.Obj? ==>
      forall name | name in v.members && NewlyEvaluated(c, depth, s, v, name) ::
        Accepts(c, depth, s.members[UNEVALUATED], v.members[name])
  }

  ghost predicate NewlyEvaluated(c: Context, depth: nat, s: Value, v: Value, name: string)
    requires s.Obj?
  {
    && Key(name) !in Evaluated(c, depth, s, v)
    && Key(name) in Evaluated(NormalizedContext(c), depth, Normalized(s), v)
  }

  lemma OthersAlike(c: Context, r: References, depth: nat, s: Value, v: Value)
    requires PlainBelow(c, r, s) && Closed(c, r)
    ensures Normalized(s).Obj?
    ensures OthersHold(NormalizedContext(c), depth, Normalized(s), v) == OthersHold(c, depth, s, v)
  {
    hide PlainKeyword, Closed, Normalized, NormalizedMembers, Still, Keyword;
    var d, t := NormalizedContext(c), Normalized(s);
    MembersOfNormalized(s);
    forall k | k in s.members && k != UNEVALUATED ensures Keyword(d, depth, t, k, v) == Keyword(c, depth, s, k, v) {
      SameKeyword(c, r, depth, s, k, v);
    }
    forall k | k in t.members && k !in s.members ensures Keyword(d, depth, t, k, v) {
      AdditionalTrueHolds(d, depth, t, v);
    }
  }

  lemma AcceptsSplits(c: Context, depth: nat, s: Value, v: Value)
    requires s.Obj? && UNEVALUATED in s.members
    ensures Accepts(c, depth, s, v) <==> OthersHold(c, depth, s, v) && OneKeyword(c, depth, s, UNEVALUATED, v)
  {
    hide OneKeyword, KindOf;
    KindsOfSchemas();
    assert Keyword(c, depth, s, UNEVALUATED, v) == OneKeyword(c, depth, s, UNEVALUATED, v);
    hide Keyword;
  }

  lemma UnevaluatedMeans(c: Context, depth: nat, s: Value, v: Value)
    requires s.Obj? && UNEVALUATED in s.members
    ensures OneKeyword(c, depth, s, UNEVALUATED, v) <==>
      (v.Obj? ==> forall name :: name in v.members && Key(name) !in Evaluated(c, depth, s, v) ==>
        Accepts(c, depth, s.members[UNEVALUATED], v.members[name]))
  {
    hide Accepts, Evaluated, Named;
  }

  /** If all schemas below it are plain, a schema that is free-form in place or not refuses nothing
  it accepted before the normalizer, and what it accepts afterwards it accepted before exactly if the
  newly evaluated members pass. SchemaGrowth.dfy has schemas below that are not plain. */
  lemma OnlyOpens(c: Context, r: References, depth: nat, s: Value, v: Value)
    requires PlainBelow(c, r, s) && Closed(c, r) && UNEVALUATED in s.members
    ensures Accepts(c, depth, s, v) <==>
      Accepts(NormalizedContext(c), depth, Normalized(s), v) && NewlyEvaluatedPass(c, depth, s, v)
  {
    hide PlainKeyword, Closed, Normalized, NormalizedMembers, Accepts, OneKeyword, OthersHold, KindOf, Evaluated, Still;
    var d, t := NormalizedContext(c), Normalized(s);
    KindsOfSchemas();
    MembersOfNormalized(s);
    OthersAlike(c, r, depth, s, v);
    AcceptsSplits(c, depth, s, v);
    AcceptsSplits(d, depth, t, v);
    UnevaluatedMeans(c, depth, s, v);
    UnevaluatedMeans(d, depth, t, v);
    SameInside(c, r, depth, s, UNEVALUATED);
    EvaluatedGrows(c, r, depth, s, v);
  }

  /** The exact condition if all schemas below are plain: the meaning of a schema with
  unevaluatedProperties is kept if and only if in every instance that is accepted afterwards the newly
  evaluated members pass. */
  lemma KeptExactlyWhenTheyPass(c: Context, r: References, depth: nat, s: Value)
    requires PlainBelow(c, r, s) && Closed(c, r) && UNEVALUATED in s.members
    ensures Kept(c, depth, s) <==>
      forall v :: Accepts(NormalizedContext(c), depth, Normalized(s), v) ==> NewlyEvaluatedPass(c, depth, s, v)
  {
    hide PlainKeyword, Closed, Normalized, Accepts, NewlyEvaluatedPass;
    forall v
      ensures Accepts(c, depth, s, v) <==>
        Accepts(NormalizedContext(c), depth, Normalized(s), v) && NewlyEvaluatedPass(c, depth, s, v)
    {
      OnlyOpens(c, r, depth, s, v);
    }
  }

  /** Instances with one member. */
  function One(x: Value): Value {
    Obj(map["a" := x])
  }

  /** A schema that lets nothing be evaluated before and every member afterwards, and otherwise takes
  every object. If all schemas below it are plain, it keeps its meaning if and only if its
  unevaluatedProperties accept every value. */
  ghost predicate Opened(c: Context, depth: nat, s: Value)
    requires s.Obj?
  {
    forall x :: NewlyEvaluated(c, depth, s, One(x), "a") && OthersHold(c, depth, s, One(x))
  }

  lemma KeptExactlyWhenAnythingPasses(c: Context, r: References, depth: nat, s: Value)
    requires PlainBelow(c, r, s) && Closed(c, r) && UNEVALUATED in s.members && Opened(c, depth, s)
    ensures Kept(c, depth, s) <==> AcceptsAll(c, depth, s.members[UNEVALUATED])
  {
    hide PlainKeyword, Closed, Normalized, NormalizedMembers, Accepts, OneKeyword, OthersHold, KindOf, Evaluated;
    KeptExactlyWhenTheyPass(c, r, depth, s);
    if Kept(c, depth, s) {
      forall x ensures Accepts(c, depth, s.members[UNEVALUATED], x) {
        OneIsAccepted(c, r, depth, s, x);
        OnePasses(c, depth, s, x);
      }
    }
    if AcceptsAll(c, depth, s.members[UNEVALUATED]) {
      forall v ensures NewlyEvaluatedPass(c, depth, s, v) {
        AllPass(c, depth, s, v);
      }
    }
  }

  lemma OnePasses(c: Context, depth: nat, s: Value, x: Value)
    requires s.Obj? && UNEVALUATED in s.members && Opened(c, depth, s) && NewlyEvaluatedPass(c, depth, s, One(x))
    ensures Accepts(c, depth, s.members[UNEVALUATED], x)
  {
    hide Accepts, Evaluated, NewlyEvaluated;
    assert One(x).members["a"] == x;
  }

  lemma AllPass(c: Context, depth: nat, s: Value, v: Value)
    requires s.Obj? && UNEVALUATED in s.members && forall x :: Accepts(c, depth, s.members[UNEVALUATED], x)
    ensures NewlyEvaluatedPass(c, depth, s, v)
  {
    hide Accepts, NewlyEvaluated;
  }

  lemma OneIsAccepted(c: Context, r: References, depth: nat, s: Value, x: Value)
    requires PlainBelow(c, r, s) && Closed(c, r) && UNEVALUATED in s.members && Opened(c, depth, s)
    ensures Accepts(NormalizedContext(c), depth, Normalized(s), One(x))
  {
    hide PlainKeyword, Closed, Normalized, NormalizedMembers, Accepts, OneKeyword, OthersHold, KindOf, Evaluated;
    assert NewlyEvaluated(c, depth, s, One(x), "a") && OthersHold(c, depth, s, One(x));
    OthersAlike(c, r, depth, s, One(x));
    MembersOfNormalized(s);
    AcceptsSplits(NormalizedContext(c), depth, Normalized(s), One(x));
    UnevaluatedMeans(NormalizedContext(c), depth, Normalized(s), One(x));
  }

  const IN_PLACE := ["contains", "allOf", "anyOf", "oneOf", "if", "dependentSchemas", "$ref", "properties",
                     "patternProperties", "items", "prefixItems"]

  lemma AbsentAddNothing(c: Context, depth: nat, s: Value, x: Value)
    requires s.Obj?
    ensures "contains" !in s.members ==> Contained(c, depth, s, One(x)) == {}
    ensures forall k :: k !in s.members ==> InList(c, depth, s, k, One(x)) == {}
    ensures "if" !in s.members ==> InBranches(c, depth, s, One(x)) == {}
    ensures "dependentSchemas" !in s.members ==> InDependents(c, depth, s, One(x)) == {}
    ensures "$ref" !in s.members ==> InTarget(c, depth, s, One(x)) == {}
    ensures "properties" !in s.members && "patternProperties" !in s.members ==>
      Own(c, s, One(x)) == if ADDITIONAL in s.members then {Key("a")} else {}
  {
    hide Accepts, EvaluatedBy, Containing;
  }

  lemma InPlaceHas()
    ensures "contains" in IN_PLACE && "allOf" in IN_PLACE && "anyOf" in IN_PLACE && "oneOf" in IN_PLACE && "if" in IN_PLACE
    ensures "dependentSchemas" in IN_PLACE && "$ref" in IN_PLACE && "properties" in IN_PLACE && "patternProperties" in IN_PLACE
    ensures "allOf" !in ["contains", "anyOf", "oneOf", "if", "dependentSchemas", "$ref", "properties", "patternProperties"]
  {
  }

  /** A schema without such keywords lets nothing be evaluated but by additionalProperties. */
  lemma BareEvaluated(c: Context, depth: nat, s: Value, x: Value)
    requires s.Obj? && forall k :: k in IN_PLACE ==> k !in s.members
    ensures Evaluated(c, depth, s, One(x)) == if ADDITIONAL in s.members then {Key("a")} else {}
  {
    InPlaceHas();
    hide IN_PLACE, Contained, InList, InBranches, InDependents, InTarget, Own;
    AbsentAddNothing(c, depth, s, x);
  }

  /** A free-form object schema of this type, the simplest there is. */
  function ObjectSchema(t: Value): Value {
    Obj(map["type" := t])
  }

  function FreeSchema(t: Value, w: Value): Value {
    Obj(map["type" := t, UNEVALUATED := w])
  }

  function FreeInPlace(t: Value, w: Value): Value {
    Obj(map["allOf" := Arr([ObjectSchema(t)]), UNEVALUATED := w])
  }

  /** The type is an assertion that objects meet. */
  ghost predicate TakesObjects(c: Context, t: Value) {
    && IsObjectType(t) && FreeForms(t) == 0 && !c.annotates("type")
    && forall v: Value :: v.Obj? ==> c.asserts("type", t, v)
  }

  lemma FreeGetsAdditional(c: Context, depth: nat, s: Value, x: Value)
    requires s.Obj? && FreeForm(s.members)
    ensures Normalized(s).Obj? && ADDITIONAL in Normalized(s).members
    ensures Key("a") in Evaluated(c, depth, Normalized(s), One(x))
  {
    hide InList, InBranches, InDependents, InTarget, Contained, Named, PrefixCount;
    assert Key("a") in Own(c, Normalized(s), One(x));
  }

  lemma ObjectSchemaIsPlain(c: Context, r: References, t: Value)
    requires TakesObjects(c, t)
    ensures Plain(c, r, ObjectSchema(t)) && FreeForm(ObjectSchema(t).members)
  {
    KindsOfAssertions();
    hide KindOf;
    var s := ObjectSchema(t);
    assert forall k :: k in s.members ==> k == "type";
    assert PlainKeyword(c, r, s, "type");
  }

  lemma ObjectSchemaAccepts(c: Context, depth: nat, t: Value, x: Value)
    requires TakesObjects(c, t)
    ensures Accepts(c, depth, ObjectSchema(t), One(x))
  {
    KindsOfAssertions();
    hide KindOf;
    var s := ObjectSchema(t);
    assert forall k :: k in s.members ==> k == "type";
    assert Keyword(c, depth, s, "type", One(x));
  }

  lemma NothingInPlace(t: Value, w: Value)
    ensures forall k :: k in IN_PLACE ==> k !in ObjectSchema(t).members && k !in FreeSchema(t, w).members
    ensures ADDITIONAL !in ObjectSchema(t).members && UNEVALUATED !in ObjectSchema(t).members
    ensures ADDITIONAL !in FreeSchema(t, w).members
  {
    assert ObjectSchema(t).members.Keys == {"type"};
    assert FreeSchema(t, w).members.Keys == {"type", UNEVALUATED};
    assert "type" !in IN_PLACE && UNEVALUATED !in IN_PLACE;
  }

  /** The object schema in place, before and after. */
  lemma ObjectSchemaOpens(c: Context, r: References, depth: nat, t: Value, x: Value)
    requires TakesObjects(c, t) && Closed(c, r)
    ensures EvaluatedBy(c, depth, ObjectSchema(t), One(x)) == {}
    ensures Key("a") in EvaluatedBy(NormalizedContext(c), depth, Normalized(ObjectSchema(t)), One(x))
  {
    hide Accepts, Evaluated, Normalized, Plain, FreeForm;
    var s := ObjectSchema(t);
    NothingInPlace(t, Null);
    BareEvaluated(c, depth, s, x);
    ObjectSchemaAccepts(c, depth, t, x);
    ObjectSchemaIsPlain(c, r, t);
    SameMeaning(c, r, depth, s, One(x));
    FreeGetsAdditional(NormalizedContext(c), depth, s, x);
  }

  lemma FreeSchemaIsPlain(c: Context, r: References, t: Value, w: Value)
    requires TakesObjects(c, t) && Plain(c, r, w)
    ensures PlainBelow(c, r, FreeSchema(t, w)) && FreeForm(FreeSchema(t, w).members)
  {
    KindsOfAssertions();
    KindsOfSchemas();
    hide KindOf, Plain;
    var s := FreeSchema(t, w);
    assert forall k :: k in s.members ==> k == "type" || k == UNEVALUATED;
    assert PlainKeyword(c, r, s, "type") && PlainKeyword(c, r, s, UNEVALUATED);
  }

  lemma FreeIsOpened(c: Context, r: References, depth: nat, t: Value, w: Value)
    requires TakesObjects(c, t) && Plain(c, r, w)
    ensures PlainBelow(c, r, FreeSchema(t, w)) && Opened(c, depth, FreeSchema(t, w))
  {
    var s := FreeSchema(t, w);
    FreeSchemaIsPlain(c, r, t, w);
    NothingInPlace(t, w);
    KindsOfAssertions();
    assert forall k :: k in s.members && k != UNEVALUATED ==> k == "type";
    hide KindOf, Plain, PlainBelow, Evaluated, Normalized, FreeForm;
    forall x ensures NewlyEvaluated(c, depth, s, One(x), "a") && OthersHold(c, depth, s, One(x)) {
      BareEvaluated(c, depth, s, x);
      FreeGetsAdditional(NormalizedContext(c), depth, s, x);
      assert Keyword(c, depth, s, "type", One(x));
    }
  }

  /** Of the keywords in place, s has allOf only. */
  lemma AllOfEvaluated(c: Context, depth: nat, s: Value, x: Value)
    requires s.Obj? && ADDITIONAL !in s.members && forall k :: k in IN_PLACE && k != "allOf" ==> k !in s.members
    ensures Evaluated(c, depth, s, One(x)) == InList(c, depth, s, "allOf", One(x))
  {
    InPlaceHas();
    hide IN_PLACE, Contained, InList, InBranches, InDependents, InTarget, Own;
    AbsentAddNothing(c, depth, s, x);
  }

  lemma FreeInPlaceKeys(t: Value, w: Value)
    ensures var s := FreeInPlace(t, w);
      && ADDITIONAL !in s.members && "type" !in s.members
      && forall k :: k in s.members ==> k == "allOf" || k == UNEVALUATED
    ensures forall k :: k in IN_PLACE && k != "allOf" ==> k !in FreeInPlace(t, w).members
  {
    assert FreeInPlace(t, w).members.Keys == {"allOf", UNEVALUATED};
    assert UNEVALUATED !in IN_PLACE;
  }

  lemma FreeInPlaceIsPlain(c: Context, r: References, t: Value, w: Value)
    requires TakesObjects(c, t) && Plain(c, r, w)
    ensures PlainBelow(c, r, FreeInPlace(t, w))
  {
    KindsOfSchemas();
    FreeInPlaceKeys(t, w);
    ObjectSchemaIsPlain(c, r, t);
    hide KindOf, Plain, FreeForm;
    var s := FreeInPlace(t, w);
    assert PlainKeyword(c, r, s, "allOf") && PlainKeyword(c, r, s, UNEVALUATED);
  }

  lemma FreeInPlaceIsOpened(c: Context, r: References, depth: nat, t: Value, w: Value)
    requires TakesObjects(c, t) && Plain(c, r, w) && Closed(c, r)
    ensures PlainBelow(c, r, FreeInPlace(t, w)) && Opened(c, depth, FreeInPlace(t, w))
  {
    FreeInPlaceIsPlain(c, r, t, w);
    forall x
      ensures NewlyEvaluated(c, depth, FreeInPlace(t, w), One(x), "a") && OthersHold(c, depth, FreeInPlace(t, w), One(x))
    {
      FreeInPlaceIsOpenedTo(c, r, depth, t, w, x);
    }
  }

  lemma FreeInPlaceIsOpenedTo(c: Context, r: References, depth: nat, t: Value, w: Value, x: Value)
    requires TakesObjects(c, t) && Plain(c, r, w) && Closed(c, r)
    ensures NewlyEvaluated(c, depth, FreeInPlace(t, w), One(x), "a") && OthersHold(c, depth, FreeInPlace(t, w), One(x))
  {
    hide KindOf, Plain, FreeForm, PlainKeyword, Evaluated, EvaluatedBy, Normalized, NormalizedMembers, Accepts, TakesObjects, Closed;
    var s, d := FreeInPlace(t, w), NormalizedContext(c);
    KindsOfSchemas();
    FreeInPlaceKeys(t, w);
    FreeInPlaceIsPlain(c, r, t, w);
    ObjectSchemaOpens(c, r, depth, t, x);
    AllOfEvaluated(c, depth, s, x);
    ListKept(c, r, s, "allOf");
    MembersOfNormalized(s);
    ObjectSchemaAccepts(c, depth, t, x);
    assert Keyword(c, depth, s, "allOf", One(x));
    InListIsEvaluated(d, depth, Normalized(s), 0, One(x), Key("a"));
  }

  lemma InListIsEvaluated(c: Context, depth: nat, s: Value, i: nat, v: Value, step: Step)
    requires s.Obj? && "allOf" in s.members && s.members["allOf"].Arr? && i < |s.members["allOf"].items|
    requires step in EvaluatedBy(c, depth, s.members["allOf"].items[i], v)
    ensures step in Evaluated(c, depth, s, v)
  {
    hide EvaluatedBy, Own, Contained, InBranches, InDependents, InTarget;
    assert step in InList(c, depth, s, "allOf", v);
  }

  /** An object schema with unevaluatedProperties and nothing else keeps its meaning if and only if
  they accept every value, and so does one that has the object schema in place. */
  lemma FreeKeptExactlyWhenAnythingPasses(c: Context, r: References, depth: nat, t: Value, w: Value)
    requires TakesObjects(c, t) && Plain(c, r, w) && Closed(c, r)
    ensures Kept(c, depth, FreeSchema(t, w)) <==> AcceptsAll(c, depth, w)
    ensures Kept(c, depth, FreeInPlace(t, w)) <==> AcceptsAll(c, depth, w)
  {
    hide PlainBelow, Plain, Closed, Kept, AcceptsAll, Opened, TakesObjects;
    FreeIsOpened(c, r, depth, t, w);
    KeptExactlyWhenAnythingPasses(c, r, depth, FreeSchema(t, w));
    FreeInPlaceIsOpened(c, r, depth, t, w);
    KeptExactlyWhenAnythingPasses(c, r, depth, FreeInPlace(t, w));
  }

  /** Two schemas that accept no member before the normalizer and any after it. */
  lemma UnevaluatedIsLost(c: Context, depth: nat, s: Value)
    requires TakesObjects(c, Str("object"))
    requires s == FreeSchema(Str("object"), Bool(false)) || s == FreeInPlace(Str("object"), Bool(false))
    ensures !Accepts(c, depth, s, Obj(map["a" := Null]))
    ensures Accepts(NormalizedContext(c), depth, Normalized(s), Obj(map["a" := Null]))
  {
    var r := References({}, {});
    assert Closed(c, r) && Plain(c, r, Bool(false));
    hide Closed, Plain, PlainBelow, Opened, TakesObjects, Normalized, FreeForm, NewlyEvaluatedPass;
    FreeIsOpened(c, r, depth, Str("object"), Bool(false));
    FreeInPlaceIsOpened(c, r, depth, Str("object"), Bool(false));
    OneIsAccepted(c, r, depth, s, Null);
    OnlyOpens(c, r, depth, s, One(Null));
    if NewlyEvaluatedPass(c, depth, s, One(Null)) {
      OnePasses(c, depth, s, Null);
    }
  }

  // ---------- Literals ----------

  /** A literal is walked like a schema: a const keeps its meaning exactly when no object in it
  looks like a free-form one. */
  lemma ConstIsKeptExactlyWhenNone(c: Context, depth: nat, w: Value)
    requires !c.annotates("const") && forall x, v :: c.asserts("const", x, v) <==> x == v
    ensures Kept(c, depth, Obj(map["const" := w])) <==> FreeForms(w) == 0
  {
    var s := Obj(map["const" := w]);
    assert Normalized(s).members == map["const" := Normalized(w)];
    UnchangedExactlyWhenNone(w);
    hide Normalized, NormalizedMembers, FreeForms;
    ConstMeans(c, depth, w);
    ConstMeans(NormalizedContext(c), depth, Normalized(w));
    hide Accepts;
    assert Accepts(c, depth, s, w);
  }

  lemma ConstMeans(c: Context, depth: nat, w: Value)
    requires !c.annotates("const") && forall x, v :: c.asserts("const", x, v) <==> x == v
    ensures forall v :: Accepts(c, depth, Obj(map["const" := w]), v) <==> v == w
  {
    KindsOfAssertions();
    hide KindOf;
    var s := Obj(map["const" := w]);
    forall v ensures Accepts(c, depth, s, v) <==> v == w {
      assert Keyword(c, depth, s, "const", v) <==> v == w;
    }
  }
}
