/** Where the normalizer of tools/genspec/main.go can only make a schema accept more, and where it
can make one accept less. */
module SchemaGrowth {
  import opened Wrappers
  import opened Values
  import opened GenSpec
  import opened SchemaMeaning

  // ---------- Schemas that can only accept more ----------

  /** Below these keywords a schema that accepts more can make the one around it accept less. */
  const TURNING := ["oneOf", "not", "if", "contains"]

  /** Schemas stand where they should, and those below a turning keyword are plain: free-form objects
  in place of an unevaluatedProperties are allowed everywhere else. The references in open lead to
  such schemas. */
  ghost predicate Growing(c: Context, r: References, open: set<string>, s: Value)
    decreases s, 1
  {
    s.Bool? || (s.Obj? && forall k :: k in s.members ==> GrowingKeyword(c, r, open, s, k))
  }

  ghost predicate GrowingKeyword(c: Context, r: References, open: set<string>, s: Value, k: string)
    requires s.Obj? && k in s.members
    decreases s, 0
  {
    var w := s.members[k];
    if k in TURNING then PlainKeyword(c, r, s, k)
    else
      match KindOf(k)
      case MapOfSchemas => w.Obj? && forall p :: p in w.members ==> Growing(c, r, open, w.members[p])
      case ListOfSchemas => w.Arr? && forall i :: 0 <= i < |w.items| ==> Growing(c, r, open, w.items[i])
      case OneSchema => Growing(c, r, open, w)
      case Reference => w.Str? && w.s in open
      case Other => PlainKeyword(c, r, s, k)
  }

  ghost predicate Open(c: Context, r: References, open: set<string>) {
    && Closed(c, r)
    && r.plain <= open
    && forall x :: x in open && c.Target(x).Some? ==> Growing(c, r, open, c.Target(x).value)
  }

  lemma {:induction false} PlainIsGrowing(c: Context, r: References, open: set<string>, s: Value)
    requires Plain(c, r, s) && r.plain <= open
    ensures Growing(c, r, open, s)
    decreases s, 2
  {
    if s.Obj? {
      PlainUnfolds(c, r, s);
      PlainBelowIsGrowing(c, r, open, s);
    }
  }

  /** So is a schema with a free-form object in place of its own unevaluatedProperties only. */
  lemma {:induction false} PlainBelowIsGrowing(c: Context, r: References, open: set<string>, s: Value)
    requires PlainBelow(c, r, s) && r.plain <= open
    ensures Growing(c, r, open, s)
    decreases s, 1
  {
    hide PlainKeyword, GrowingKeyword;
    forall k | k in s.members ensures GrowingKeyword(c, r, open, s, k) {
      PlainKeywordIsGrowing(c, r, open, s, k);
    }
  }

  lemma {:induction false} PlainKeywordIsGrowing(c: Context, r: References, open: set<string>, s: Value, k: string)
    requires s.Obj? && k in s.members && PlainKeyword(c, r, s, k) && r.plain <= open
    ensures GrowingKeyword(c, r, open, s, k)
    decreases s, 0
  {
    hide KindOf, TURNING, Plain, Growing;
    var w := s.members[k];
    match KindOf(k)
    case MapOfSchemas =>
      forall p | p in w.members ensures Growing(c, r, open, w.members[p]) {
        PlainIsGrowing(c, r, open, w.members[p]);
      }
    case ListOfSchemas =>
      forall i | 0 <= i < |w.items| ensures Growing(c, r, open, w.items[i]) {
        PlainIsGrowing(c, r, open, w.items[i]);
      }
    case OneSchema => PlainIsGrowing(c, r, open, w);
    case _ =>
  }

  lemma GrowingIsNoType(c: Context, r: References, open: set<string>, x: Value)
    requires Growing(c, r, open, x)
    ensures !IsObjectType(x)
  {
  }

  lemma GrowingBelow(c: Context, r: References, open: set<string>, s: Value, k: string)
    requires s.Obj? && Growing(c, r, open, s) && k in s.members
    ensures GrowingKeyword(c, r, open, s, k)
  {
  }

  // ---------- More accepted below keeps the keyword ----------

  lemma MapsCarry(c: Context, d: Context, depth: nat, w: Value, x: Value, k: string, v: Value)
    requires w.Obj? && x.Obj? && x.members.Keys == w.members.Keys && d.matches == c.matches
    requires forall p, u :: p in w.members && Accepts(c, depth, w.members[p], u) ==> Accepts(d, depth, x.members[p], u)
    ensures MapKeyword(c, depth, w, k, v) ==> MapKeyword(d, depth, x, k, v)
  {
    hide Accepts;
  }

  lemma ListsCarry(c: Context, d: Context, depth: nat, w: Value, x: Value, k: string, v: Value)
    requires w.Arr? && x.Arr? && |x.items| == |w.items| && k != "oneOf"
    requires forall i, u :: 0 <= i < |w.items| && Accepts(c, depth, w.items[i], u) ==> Accepts(d, depth, x.items[i], u)
    ensures ListKeyword(c, depth, w, k, v) ==> ListKeyword(d, depth, x, k, v)
  {
    hide Accepts;
    if k == "anyOf" && ListKeyword(c, depth, w, k, v) {
      var i :| 0 <= i < |w.items| && Accepts(c, depth, w.items[i], v);
      assert Accepts(d, depth, x.items[i], v);
    }
  }

  lemma OnesCarry(c: Context, d: Context, depth: nat, s: Value, t: Value, k: string, v: Value)
    requires s.Obj? && t.Obj? && k in s.members && k in t.members && BesideAlike(c, d, depth, s, t, v)
    requires k != "not" && k != "contains"
    requires forall u :: Accepts(c, depth, s.members[k], u) ==> Accepts(d, depth, t.members[k], u)
    requires Evaluated(c, depth, s, v) <= Evaluated(d, depth, t, v)
    ensures OneKeyword(c, depth, s, k, v) ==> OneKeyword(d, depth, t, k, v)
  {
    hide Accepts, Evaluated, Named, PrefixCount, Bound, Containing;
  }

  // ---------- The normalizer refuses nothing that a growing schema accepts ----------

  /** What a growing schema accepted is accepted afterwards. */
  lemma {:induction false} NothingRefused(c: Context, r: References, open: set<string>, depth: nat, s: Value, v: Value)
    requires Growing(c, r, open, s) && Open(c, r, open)
    ensures Accepts(c, depth, s, v) ==> Accepts(NormalizedContext(c), depth, Normalized(s), v)
    decreases depth, s, 20
  {
    if s.Obj? && Accepts(c, depth, s, v) {
      hide Growing, GrowingKeyword, Open, Normalized, NormalizedMembers, Keyword;
      var d, t := NormalizedContext(c), Normalized(s);
      MembersOfNormalized(s);
      forall k | k in s.members ensures Keyword(d, depth, t, k, v) {
        KeywordCarries(c, r, open, depth, s, k, v);
      }
      forall k | k in t.members && k !in s.members ensures Keyword(d, depth, t, k, v) {
        AdditionalTrueHolds(d, depth, t, v);
      }
      assert Accepts(d, depth, t, v) <==> forall k :: k in t.members ==> Keyword(d, depth, t, k, v);
    }
  }

  lemma KeywordCarries(c: Context, r: References, open: set<string>, depth: nat, s: Value, k: string, v: Value)
    requires s.Obj? && Growing(c, r, open, s) && Open(c, r, open) && k in s.members
    ensures Normalized(s).Obj? && k in Normalized(s).members
    ensures Keyword(c, depth, s, k, v) ==> Keyword(NormalizedContext(c), depth, Normalized(s), k, v)
    decreases depth, s, 18
  {
    hide Growing, GrowingKeyword, Open, Normalized, NormalizedMembers, KindOf, MapKeyword, ListKeyword, OneKeyword, Accepts,
         Context.Target, PlainKeyword;
    MembersOfNormalized(s);
    match KindOf(k)
    case MapOfSchemas => MapCarries(c, r, open, depth, s, k, v);
    case ListOfSchemas => ListCarries(c, r, open, depth, s, k, v);
    case OneSchema => OneCarries(c, r, open, depth, s, k, v);
    case Reference => ReferenceCarries(c, r, open, depth, s, k, v);
    case Other =>
      GrowingOther(c, r, open, s, k);
      OtherKept(c, r, s, k);
  }

  lemma TurningKinds()
    ensures forall k :: k in TURNING ==> KindOf(k) == ListOfSchemas || KindOf(k) == OneSchema
    ensures "oneOf" in TURNING && "not" in TURNING && "if" in TURNING && "contains" in TURNING
    ensures forall k :: k in TURNING && KindOf(k) == ListOfSchemas ==> k == "oneOf"
  {
    hide KindOf;
    assert TURNING[0] == "oneOf" && TURNING[1] == "not" && TURNING[2] == "if" && TURNING[3] == "contains";
    KindsOfSchemas();
    NoOtherTurns();
  }

  lemma GrowingOther(c: Context, r: References, open: set<string>, s: Value, k: string)
    requires s.Obj? && Growing(c, r, open, s) && k in s.members && KindOf(k) == Other
    ensures PlainKeyword(c, r, s, k)
  {
    hide Growing, KindOf, PlainKeyword;
    GrowingBelow(c, r, open, s, k);
  }

  lemma GrowingMap(c: Context, r: References, open: set<string>, s: Value, k: string)
    requires s.Obj? && Growing(c, r, open, s) && k in s.members && KindOf(k) == MapOfSchemas
    ensures Formed(s, k) && s.members[k].Obj?
    ensures forall p :: p in s.members[k].members ==> Growing(c, r, open, s.members[k].members[p])
  {
    hide Growing, KindOf, PlainKeyword, IsObjectType, TURNING;
    GrowingBelow(c, r, open, s, k);
    TurningKinds();
    forall p | p in s.members[k].members ensures !IsObjectType(s.members[k].members[p]) {
      GrowingIsNoType(c, r, open, s.members[k].members[p]);
    }
  }

  lemma GrowingList(c: Context, r: References, open: set<string>, s: Value, k: string)
    requires s.Obj? && Growing(c, r, open, s) && k in s.members && KindOf(k) == ListOfSchemas && r.plain <= open
    ensures Formed(s, k) && s.members[k].Arr?
    ensures forall i :: 0 <= i < |s.members[k].items| ==> Growing(c, r, open, s.members[k].items[i])
    ensures k == "oneOf" ==> forall i :: 0 <= i < |s.members[k].items| ==> Plain(c, r, s.members[k].items[i])
  {
    hide Growing, KindOf, Plain, IsObjectType, TURNING;
    GrowingBelow(c, r, open, s, k);
    TurningKinds();
    if k == "oneOf" {
      forall i | 0 <= i < |s.members[k].items| ensures Growing(c, r, open, s.members[k].items[i]) {
        PlainIsGrowing(c, r, open, s.members[k].items[i]);
      }
    }
  }

  lemma GrowingOne(c: Context, r: References, open: set<string>, s: Value, k: string)
    requires s.Obj? && Growing(c, r, open, s) && k in s.members && KindOf(k) == OneSchema && r.plain <= open
    ensures Growing(c, r, open, s.members[k])
    ensures k in TURNING ==> Plain(c, r, s.members[k])
  {
    hide Growing, KindOf, Plain, TURNING;
    GrowingBelow(c, r, open, s, k);
    if k in TURNING {
      PlainIsGrowing(c, r, open, s.members[k]);
    }
  }

  lemma GrowingReference(c: Context, r: References, open: set<string>, s: Value, k: string)
    requires s.Obj? && Growing(c, r, open, s) && k in s.members && KindOf(k) == Reference
    ensures var w := s.members[k]; w.Str? && w.s in open && Normalized(w) == w
  {
    hide Growing, KindOf, PlainKeyword, TURNING;
    GrowingBelow(c, r, open, s, k);
    TurningKinds();
  }

  lemma MapCarries(c: Context, r: References, open: set<string>, depth: nat, s: Value, k: string, v: Value)
    requires s.Obj? && Growing(c, r, open, s) && Open(c, r, open) && k in s.members && KindOf(k) == MapOfSchemas
    ensures s.members[k].Obj? && k in Normalized(s).members && Normalized(s).members[k].Obj?
    ensures MapKeyword(c, depth, s.members[k], k, v) ==> MapKeyword(NormalizedContext(c), depth, Normalized(s).members[k], k, v)
    decreases depth, s, 17
  {
    hide Growing, Open, Normalized, NormalizedMembers, KindOf, MapKeyword, Accepts, Formed;
    GrowingMap(c, r, open, s, k);
    FormedMapStays(s, k);
    var w, x := s.members[k], Normalized(s).members[k];
    forall p, u | p in w.members && Accepts(c, depth, w.members[p], u)
      ensures Accepts(NormalizedContext(c), depth, x.members[p], u)
    {
      NothingRefused(c, r, open, depth, w.members[p], u);
    }
    MapsCarry(c, NormalizedContext(c), depth, w, x, k, v);
  }

  lemma ListCarries(c: Context, r: References, open: set<string>, depth: nat, s: Value, k: string, v: Value)
    requires s.Obj? && Growing(c, r, open, s) && Open(c, r, open) && k in s.members && KindOf(k) == ListOfSchemas
    ensures s.members[k].Arr? && k in Normalized(s).members && Normalized(s).members[k].Arr?
    ensures ListKeyword(c, depth, s.members[k], k, v) ==> ListKeyword(NormalizedContext(c), depth, Normalized(s).members[k], k, v)
    decreases depth, s, 17
  {
    hide Growing, Normalized, NormalizedMembers, KindOf, ListKeyword, Accepts, Formed, Closed, Plain;
    GrowingList(c, r, open, s, k);
    FormedListStays(s, k);
    var w, x := s.members[k], Normalized(s).members[k];
    var d := NormalizedContext(c);
    if k == "oneOf" {
      forall i, u | 0 <= i < |w.items| ensures Accepts(d, depth, x.items[i], u) == Accepts(c, depth, w.items[i], u) {
        SameMeaning(c, r, depth, w.items[i], u);
      }
      ListsAlike(c, d, depth, w, x, k, v);
    } else {
      forall i, u | 0 <= i < |w.items| && Accepts(c, depth, w.items[i], u) ensures Accepts(d, depth, x.items[i], u) {
        NothingRefused(c, r, open, depth, w.items[i], u);
      }
      ListsCarry(c, d, depth, w, x, k, v);
    }
  }

  /** The one schema that a keyword holds, on every instance. */
  lemma InsideCarries(c: Context, r: References, open: set<string>, depth: nat, s: Value, k: string)
    requires s.Obj? && Growing(c, r, open, s) && Open(c, r, open) && k in s.members && KindOf(k) == OneSchema
    ensures Normalized(s).Obj? && k in Normalized(s).members
    ensures forall u :: Accepts(c, depth, s.members[k], u) ==> Accepts(NormalizedContext(c), depth, Normalized(s).members[k], u)
    decreases depth, s, 14
  {
    hide Growing, Normalized, NormalizedMembers, KindOf, Accepts, Closed, Plain;
    MembersOfNormalized(s);
    GrowingOne(c, r, open, s, k);
    forall u | Accepts(c, depth, s.members[k], u)
      ensures Accepts(NormalizedContext(c), depth, Normalized(s).members[k], u)
    {
      NothingRefused(c, r, open, depth, s.members[k], u);
    }
  }

  /** Below a turning keyword the meaning stays. */
  lemma TurningInside(c: Context, r: References, open: set<string>, depth: nat, s: Value, k: string)
    requires s.Obj? && Growing(c, r, open, s) && Open(c, r, open) && k in s.members && k in ["not", "if", "contains"]
    ensures Normalized(s).Obj? && k in Normalized(s).members && Normalized(s).members[k] == Normalized(s.members[k])
    ensures forall u :: Accepts(NormalizedContext(c), depth, Normalized(s).members[k], u) == Accepts(c, depth, s.members[k], u)
  {
    hide Growing, Normalized, NormalizedMembers, KindOf, Accepts, Closed, Plain, TURNING;
    TurningKinds();
    NoOtherTurns();
    MembersOfNormalized(s);
    GrowingOne(c, r, open, s, k);
    forall u ensures Accepts(NormalizedContext(c), depth, Normalized(s).members[k], u) == Accepts(c, depth, s.members[k], u) {
      SameMeaning(c, r, depth, s.members[k], u);
    }
  }

  lemma NoOtherTurns()
    ensures KindOf("not") == KindOf("if") == KindOf("contains") == OneSchema
  {
  }

  lemma GrowingForm(c: Context, r: References, open: set<string>, s: Value)
    requires s.Obj? && Growing(c, r, open, s) && r.plain <= open
    ensures Normalized(s).Obj?
    ensures forall name :: Named(NormalizedContext(c), Normalized(s), name) == Named(c, s, name)
    ensures PrefixCount(Normalized(s)) == PrefixCount(s)
  {
    hide Growing, KindOf, Formed, Normalized, Named, PrefixCount;
    KindsOfSchemas();
    GrowingIsFormed(c, r, open, s, "properties");
    GrowingIsFormed(c, r, open, s, "patternProperties");
    GrowingIsFormed(c, r, open, s, "prefixItems");
    SpeaksAlike(c, s);
  }

  lemma GrowingIsFormed(c: Context, r: References, open: set<string>, s: Value, k: string)
    requires s.Obj? && Growing(c, r, open, s) && r.plain <= open
    ensures Formed(s, k)
  {
    hide Growing, KindOf, IsObjectType;
    if k in s.members && KindOf(k) == MapOfSchemas {
      GrowingMap(c, r, open, s, k);
    } else if k in s.members && KindOf(k) == ListOfSchemas {
      GrowingList(c, r, open, s, k);
    }
  }

  lemma GrowingBound(c: Context, r: References, open: set<string>, s: Value, k: string)
    requires s.Obj? && Growing(c, r, open, s) && k in BOUNDS
    ensures Normalized(s).Obj? && Bound(Normalized(s), k) == Bound(s, k)
  {
    hide Growing, KindOf, Normalized, PlainKeyword, Bound;
    KindsOfBounds();
    if k in s.members {
      GrowingOther(c, r, open, s, k);
    }
    BoundAlike(c, r, s, k);
  }

  lemma GrowingBeside(c: Context, r: References, open: set<string>, depth: nat, s: Value, v: Value)
    requires s.Obj? && Growing(c, r, open, s) && Open(c, r, open)
    ensures Normalized(s).Obj? && BesideAlike(c, NormalizedContext(c), depth, s, Normalized(s), v)
  {
    hide Growing, Closed, Normalized, NormalizedMembers, KindOf, Accepts, Named, PrefixCount, Bound;
    GrowingForm(c, r, open, s);
    GrowingBound(c, r, open, s, "minContains");
    GrowingBound(c, r, open, s, "maxContains");
    SameKeys(s, "if");
    if "if" in s.members {
      TurningInside(c, r, open, depth, s, "if");
    }
  }

  lemma OneCarries(c: Context, r: References, open: set<string>, depth: nat, s: Value, k: string, v: Value)
    requires s.Obj? && Growing(c, r, open, s) && Open(c, r, open) && k in s.members && KindOf(k) == OneSchema
    ensures Normalized(s).Obj? && k in Normalized(s).members
    ensures OneKeyword(c, depth, s, k, v) ==> OneKeyword(NormalizedContext(c), depth, Normalized(s), k, v)
    decreases depth, s, 17
  {
    hide Growing, Open, Normalized, NormalizedMembers, KindOf, Accepts, OneKeyword, BesideAlike, Evaluated;
    var d, t := NormalizedContext(c), Normalized(s);
    GrowingBeside(c, r, open, depth, s, v);
    if k == "not" || k == "contains" {
      TurningInside(c, r, open, depth, s, k);
      OnesAlike(c, d, depth, s, t, k, v);
    } else {
      InsideCarries(c, r, open, depth, s, k);
      EvaluatedIsKept(c, r, open, depth, s, v);
      OnesCarry(c, d, depth, s, t, k, v);
    }
  }

  lemma ReferenceCarries(c: Context, r: References, open: set<string>, depth: nat, s: Value, k: string, v: Value)
    requires s.Obj? && Growing(c, r, open, s) && Open(c, r, open) && k in s.members && KindOf(k) == Reference
    ensures k in Normalized(s).members && Normalized(s).members[k] == s.members[k] && s.members[k].Str?
    ensures Follows(c, depth, s.members[k].s, v) ==> Follows(NormalizedContext(c), depth, s.members[k].s, v)
    decreases depth, s, 17
  {
    hide Growing, Closed, Normalized, NormalizedMembers, KindOf, Context.Target, NormalizedContext;
    GrowingReference(c, r, open, s, k);
    MembersOfNormalized(s);
    var reference := s.members[k].s;
    TargetOfNormalized(c, reference);
    if depth > 0 {
      if c.Target(reference).Some? {
        NothingRefused(c, r, open, depth - 1, c.Target(reference).value, v);
      } else {
        assert Accepts(NormalizedContext(c), depth - 1, Bool(true), v);
      }
    }
  }

  // ---------- Nothing that was evaluated is lost ----------

  /** A schema combined in place. */
  lemma InPlaceIsKept(c: Context, r: References, open: set<string>, depth: nat, x: Value, v: Value)
    requires Growing(c, r, open, x) && Open(c, r, open)
    ensures EvaluatedBy(c, depth, x, v) <= EvaluatedBy(NormalizedContext(c), depth, Normalized(x), v)
    decreases depth, x, 21
  {
    hide Growing, Open, Normalized, NormalizedMembers, Accepts, Evaluated, OwnUnevaluated;
    if x.Obj? {
      NothingRefused(c, r, open, depth, x, v);
      MembersOfNormalized(x);
      EvaluatedIsKept(c, r, open, depth, x, v);
      OwnUnevaluatedSame(x, v);
    }
  }

  lemma OwnIsKept(c: Context, r: References, open: set<string>, s: Value, v: Value)
    requires s.Obj? && Growing(c, r, open, s) && r.plain <= open
    ensures Normalized(s).Obj? && Own(c, s, v) <= Own(NormalizedContext(c), Normalized(s), v)
  {
    hide Growing, Normalized, NormalizedMembers, Named, PrefixCount, FreeForm, NormalizedContext;
    MembersOfNormalized(s);
    SameKeys(s, "items");
    GrowingForm(c, r, open, s);
  }

  lemma ContainedIsKept(c: Context, r: References, open: set<string>, depth: nat, s: Value, v: Value)
    requires s.Obj? && Growing(c, r, open, s) && Open(c, r, open)
    ensures Normalized(s).Obj? && Contained(c, depth, s, v) <= Contained(NormalizedContext(c), depth, Normalized(s), v)
  {
    hide Growing, Open, Normalized, NormalizedMembers, Accepts, Containing;
    SameKeys(s, "contains");
    if "contains" in s.members && v.Arr? {
      TurningInside(c, r, open, depth, s, "contains");
      ContainingAlike(c, NormalizedContext(c), depth, s.members["contains"], Normalized(s).members["contains"], v);
    }
  }

  lemma InListIsKept(c: Context, r: References, open: set<string>, depth: nat, s: Value, k: string, v: Value)
    requires s.Obj? && Growing(c, r, open, s) && Open(c, r, open) && k in ["allOf", "anyOf", "oneOf"]
    ensures Normalized(s).Obj? && InList(c, depth, s, k, v) <= InList(NormalizedContext(c), depth, Normalized(s), k, v)
    decreases depth, s, 15
  {
    hide Growing, Closed, Normalized, NormalizedMembers, KindOf, EvaluatedBy, Formed, Plain;
    KindsOfSchemas();
    SameKeys(s, k);
    if k in s.members {
      GrowingList(c, r, open, s, k);
      FormedListStays(s, k);
      var w, x := s.members[k].items, Normalized(s).members[k].items;
      forall i | 0 <= i < |w| ensures EvaluatedBy(c, depth, w[i], v) <= EvaluatedBy(NormalizedContext(c), depth, x[i], v) {
        InPlaceIsKept(c, r, open, depth, w[i], v);
      }
    }
  }

  lemma BranchIsKept(c: Context, r: References, open: set<string>, depth: nat, s: Value, k: string, v: Value)
    requires s.Obj? && Growing(c, r, open, s) && Open(c, r, open) && k in s.members && k in ["if", "then", "else"]
    ensures Normalized(s).Obj? && k in Normalized(s).members
    ensures EvaluatedBy(c, depth, s.members[k], v) <= EvaluatedBy(NormalizedContext(c), depth, Normalized(s).members[k], v)
    decreases depth, s, 14
  {
    hide Growing, Closed, Normalized, NormalizedMembers, KindOf, EvaluatedBy, Plain;
    KindsOfSchemas();
    MembersOfNormalized(s);
    GrowingOne(c, r, open, s, k);
    InPlaceIsKept(c, r, open, depth, s.members[k], v);
  }

  lemma InBranchesIsKept(c: Context, r: References, open: set<string>, depth: nat, s: Value, v: Value)
    requires s.Obj? && Growing(c, r, open, s) && Open(c, r, open)
    ensures Normalized(s).Obj? && InBranches(c, depth, s, v) <= InBranches(NormalizedContext(c), depth, Normalized(s), v)
    decreases depth, s, 15
  {
    hide Growing, Open, Normalized, NormalizedMembers, EvaluatedBy, Accepts;
    SameKeys(s, "if");
    SameKeys(s, "then");
    SameKeys(s, "else");
    if "if" in s.members {
      TurningInside(c, r, open, depth, s, "if");
      BranchIsKept(c, r, open, depth, s, "if", v);
    }
    if "then" in s.members {
      BranchIsKept(c, r, open, depth, s, "then", v);
    }
    if "else" in s.members {
      BranchIsKept(c, r, open, depth, s, "else", v);
    }
  }

  lemma InDependentsIsKept(c: Context, r: References, open: set<string>, depth: nat, s: Value, v: Value)
    requires s.Obj? && Growing(c, r, open, s) && Open(c, r, open)
    ensures Normalized(s).Obj? && InDependents(c, depth, s, v) <= InDependents(NormalizedContext(c), depth, Normalized(s), v)
    decreases depth, s, 15
  {
    hide Growing, Open, Normalized, NormalizedMembers, KindOf, EvaluatedBy, Formed;
    KindsOfSchemas();
    SameKeys(s, "dependentSchemas");
    if "dependentSchemas" in s.members && v.Obj? {
      GrowingMap(c, r, open, s, "dependentSchemas");
      FormedMapStays(s, "dependentSchemas");
      var w, x := s.members["dependentSchemas"].members, Normalized(s).members["dependentSchemas"].members;
      forall p | p in w ensures EvaluatedBy(c, depth, w[p], v) <= EvaluatedBy(NormalizedContext(c), depth, x[p], v) {
        InPlaceIsKept(c, r, open, depth, w[p], v);
      }
    }
  }

  lemma InTargetIsKept(c: Context, r: References, open: set<string>, depth: nat, s: Value, v: Value)
    requires s.Obj? && Growing(c, r, open, s) && Open(c, r, open)
    ensures Normalized(s).Obj? && InTarget(c, depth, s, v) <= InTarget(NormalizedContext(c), depth, Normalized(s), v)
    decreases depth, s, 15
  {
    hide Growing, Closed, Normalized, NormalizedMembers, KindOf, Context.Target, NormalizedContext, EvaluatedBy;
    KindsOfSchemas();
    SameKeys(s, "$ref");
    if "$ref" in s.members {
      MembersOfNormalized(s);
      GrowingReference(c, r, open, s, "$ref");
      var reference := s.members["$ref"].s;
      TargetOfNormalized(c, reference);
      if depth > 0 && c.Target(reference).Some? {
        InPlaceIsKept(c, r, open, depth - 1, c.Target(reference).value, v);
      }
    }
  }

  /** What a growing schema let be evaluated is evaluated afterwards. */
  lemma EvaluatedIsKept(c: Context, r: References, open: set<string>, depth: nat, s: Value, v: Value)
    requires s.Obj? && Growing(c, r, open, s) && Open(c, r, open)
    ensures Normalized(s).Obj?
    ensures Evaluated(c, depth, s, v) <= Evaluated(NormalizedContext(c), depth, Normalized(s), v)
    decreases depth, s, 16
  {
    hide Growing, Closed, Normalized, NormalizedMembers, Own, Contained, InList, InBranches, InDependents, InTarget;
    OwnIsKept(c, r, open, s, v);
    ContainedIsKept(c, r, open, depth, s, v);
    InListIsKept(c, r, open, depth, s, "allOf", v);
    InListIsKept(c, r, open, depth, s, "anyOf", v);
    InListIsKept(c, r, open, depth, s, "oneOf", v);
    InBranchesIsKept(c, r, open, depth, s, v);
    InDependentsIsKept(c, r, open, depth, s, v);
    InTargetIsKept(c, r, open, depth, s, v);
  }

  // ---------- Schemas that accept less afterwards ----------

  /** For each turning keyword a schema that accepts exactly what x refuses. */
  function Negation(x: Value): Value {
    Obj(map["not" := x])
  }

  function Alternative(x: Value): Value {
    Obj(map["oneOf" := Arr([x, Bool(true)])])
  }

  function Condition(x: Value): Value {
    Obj(map["if" := x, "then" := Bool(false)])
  }

  /** Of a list with one element. */
  function NoneOf(x: Value, min: Value, max: Value): Value {
    Obj(map["contains" := x, "minContains" := min, "maxContains" := max])
  }

  /** The two bounds allow no element, and say nothing by themselves. */
  ghost predicate AllowNone(c: Context, min: Value, max: Value) {
    && FreeForms(min) == 0 && FreeForms(max) == 0
    && c.annotates("minContains") && c.annotates("maxContains")
    && forall n: nat :: c.counted(Some(min), Some(max), n) <==> n == 0
  }

  /** All other keywords hold. */
  lemma AcceptsByOne(c: Context, depth: nat, s: Value, k: string, v: Value)
    requires s.Obj? && k in s.members && forall j :: j in s.members && j != k ==> Keyword(c, depth, s, j, v)
    ensures Accepts(c, depth, s, v) == Keyword(c, depth, s, k, v)
  {
    hide Keyword;
  }

  lemma NegationMeans(c: Context, depth: nat, x: Value, v: Value)
    ensures Accepts(c, depth, Negation(x), v) == !Accepts(c, depth, x, v)
  {
    NoOtherTurns();
    AcceptsByOne(c, depth, Negation(x), "not", v);
    hide KindOf, Accepts;
    assert OneKeyword(c, depth, Negation(x), "not", v) == !Accepts(c, depth, x, v);
  }

  lemma AlternativeMeans(c: Context, depth: nat, x: Value, v: Value)
    ensures Accepts(c, depth, Alternative(x), v) == !Accepts(c, depth, x, v)
  {
    KindsOfSchemas();
    AcceptsByOne(c, depth, Alternative(x), "oneOf", v);
    hide KindOf;
    OneOfTwo(c, depth, x, v);
    hide OneKeyword, ListKeyword, Accepts;
  }

  lemma OneOfTwo(c: Context, depth: nat, x: Value, v: Value)
    ensures ListKeyword(c, depth, Arr([x, Bool(true)]), "oneOf", v) == !Accepts(c, depth, x, v)
  {
    var w := Arr([x, Bool(true)]);
    assert Accepts(c, depth, w.items[1], v);
    hide Accepts;
    assert w.items[0] == x;
    assert !OnlyOne(c, depth, w, 0, v);
    assert OnlyOne(c, depth, w, 1, v) == !Accepts(c, depth, x, v);
  }

  lemma ConditionMembers(x: Value)
    ensures Condition(x).Obj?
    ensures var m := Condition(x).members;
      (forall k :: k in m <==> k == "if" || k == "then") && m["if"] == x && m["then"] == Bool(false)
  {
  }

  lemma ThenMeans(c: Context, depth: nat, s: Value, v: Value)
    requires s.Obj? && "if" in s.members && "then" in s.members && s.members["then"] == Bool(false)
    ensures OneKeyword(c, depth, s, "then", v) == !Accepts(c, depth, s.members["if"], v)
    ensures OneKeyword(c, depth, s, "if", v)
  {
    assert !Accepts(c, depth, s.members["then"], v);
    hide Accepts;
  }

  lemma ConditionMeans(c: Context, depth: nat, x: Value, v: Value)
    ensures Accepts(c, depth, Condition(x), v) == !Accepts(c, depth, x, v)
  {
    KindsOfSchemas();
    ConditionMembers(x);
    hide KindOf, OneKeyword, Accepts, Condition;
    var s := Condition(x);
    ThenMeans(c, depth, s, v);
    assert Keyword(c, depth, s, "then", v) == !Accepts(c, depth, x, v) && Keyword(c, depth, s, "if", v);
    AcceptsByOne(c, depth, s, "then", v);
  }

  lemma ContainsMeans(c: Context, depth: nat, s: Value, min: Value, max: Value, v: Value)
    requires AllowNone(c, min, max) && s.Obj? && "contains" in s.members
    requires Bound(s, "minContains") == Some(min) && Bound(s, "maxContains") == Some(max)
    ensures OneKeyword(c, depth, s, "contains", Arr([v])) == !Accepts(c, depth, s.members["contains"], v)
  {
    hide Accepts, Bound, FreeForms;
    var w := s.members["contains"];
    var found := Containing(c, depth, w, Arr([v]));
    assert found == if Accepts(c, depth, w, v) then {0} else {};
    hide Containing;
    assert OneKeyword(c, depth, s, "contains", Arr([v])) == (|found| == 0);
  }

  lemma NoneOfMembers(x: Value, min: Value, max: Value)
    ensures NoneOf(x, min, max).Obj?
    ensures var m := NoneOf(x, min, max).members;
      && (forall k :: k in m <==> k == "contains" || k == "minContains" || k == "maxContains")
      && m["contains"] == x && m["minContains"] == min && m["maxContains"] == max
  {
  }

  lemma NoneOfMeans(c: Context, depth: nat, x: Value, min: Value, max: Value, v: Value)
    requires AllowNone(c, min, max)
    ensures Accepts(c, depth, NoneOf(x, min, max), Arr([v])) == !Accepts(c, depth, x, v)
  {
    KindsOfSchemas();
    KindsOfBounds();
    NoneOfMembers(x, min, max);
    hide KindOf, OneKeyword, FreeForms, Accepts, NoneOf;
    var s := NoneOf(x, min, max);
    ContainsMeans(c, depth, s, min, max, v);
    assert Keyword(c, depth, s, "contains", Arr([v])) == !Accepts(c, depth, x, v);
    assert Keyword(c, depth, s, "minContains", Arr([v])) && Keyword(c, depth, s, "maxContains", Arr([v]));
    AcceptsByOne(c, depth, s, "contains", Arr([v]));
  }

  /** An object without a type is normalized member by member. */
  lemma UntypedIsKept(s: Value, members: map<string, Value>)
    requires s.Obj? && "type" !in s.members && members.Keys == s.members.Keys
    requires forall k :: k in members ==> members[k] == Normalized(s.members[k])
    ensures Normalized(s) == Obj(members)
  {
    assert NormalizedMembers(s) == members;
  }

  lemma NegationTaken(x: Value)
    ensures Normalized(Negation(x)) == Negation(Normalized(x))
  {
    hide Normalized;
    UntypedIsKept(Negation(x), Negation(Normalized(x)).members);
  }

  lemma AlternativeTaken(x: Value)
    ensures Normalized(Alternative(x)) == Alternative(Normalized(x))
  {
    var w := Arr([x, Bool(true)]);
    SchemaListIsKept(w);
    assert Normalized(Bool(true)) == Bool(true);
    hide Normalized;
    assert Normalized(w).items == [Normalized(x), Bool(true)];
    UntypedIsKept(Alternative(x), Alternative(Normalized(x)).members);
  }

  lemma ConditionTaken(x: Value)
    ensures Normalized(Condition(x)) == Condition(Normalized(x))
  {
    assert Normalized(Bool(false)) == Bool(false);
    hide Normalized;
    UntypedIsKept(Condition(x), Condition(Normalized(x)).members);
  }

  lemma NoneOfTaken(x: Value, min: Value, max: Value)
    requires FreeForms(min) == 0 && FreeForms(max) == 0
    ensures Normalized(NoneOf(x, min, max)) == NoneOf(Normalized(x), min, max)
  {
    hide FreeForms, Normalized;
    UnchangedExactlyWhenNone(min);
    UnchangedExactlyWhenNone(max);
    UntypedIsKept(NoneOf(x, min, max), NoneOf(Normalized(x), min, max).members);
  }

  /** Below each turning keyword the normalizer can turn what it does to the schema there: where that
  accepts more, these accept less. */
  lemma EachOneTurns(c: Context, depth: nat, x: Value, min: Value, max: Value, v: Value)
    requires AllowNone(c, min, max)
    ensures forall s | s in {Negation(x), Alternative(x), Condition(x)} ::
      && Accepts(c, depth, s, v) == !Accepts(c, depth, x, v)
      && Accepts(NormalizedContext(c), depth, Normalized(s), v) == !Accepts(NormalizedContext(c), depth, Normalized(x), v)
    ensures var s := NoneOf(x, min, max);
      && Accepts(c, depth, s, Arr([v])) == !Accepts(c, depth, x, v)
      && Accepts(NormalizedContext(c), depth, Normalized(s), Arr([v])) == !Accepts(NormalizedContext(c), depth, Normalized(x), v)
  {
    hide Accepts, Normalized, Negation, Alternative, Condition, NoneOf, FreeForms;
    var d := NormalizedContext(c);
    NegationTaken(x);
    AlternativeTaken(x);
    ConditionTaken(x);
    NoneOfTaken(x, min, max);
    NegationMeans(c, depth, x, v);
    NegationMeans(d, depth, Normalized(x), v);
    AlternativeMeans(c, depth, x, v);
    AlternativeMeans(d, depth, Normalized(x), v);
    ConditionMeans(c, depth, x, v);
    ConditionMeans(d, depth, Normalized(x), v);
    NoneOfMeans(c, depth, x, min, max, v);
    NoneOfMeans(d, depth, Normalized(x), min, max, v);
  }

  /** A free-form object whose own unevaluatedProperties let all pass; those of the object below its
  not let nothing pass. */
  function FreeNegation(t: Value): Value {
    Obj(map["type" := t, "not" := FreeSchema(t, Bool(false)), UNEVALUATED := Bool(true)])
  }

  /** Of schemas that are not growing, two that accept an object before the normalizer and refuse it afterwards. */
  lemma LessIsAccepted(c: Context, depth: nat)
    requires TakesObjects(c, Str("object"))
    ensures forall s | s in {Negation(FreeSchema(Str("object"), Bool(false))), FreeNegation(Str("object"))} ::
      Accepts(c, depth, s, Obj(map["a" := Null])) && !Accepts(NormalizedContext(c), depth, Normalized(s), Obj(map["a" := Null]))
  {
    var x, v := FreeSchema(Str("object"), Bool(false)), Obj(map["a" := Null]);
    UnevaluatedIsLost(c, depth, x);
    NegationMeans(c, depth, x, v);
    NegationMeans(NormalizedContext(c), depth, Normalized(x), v);
    NegationTaken(x);
    FreeNegationAccepts(c, depth, Str("object"), v);
    FreeNegationRefuses(c, depth, Str("object"), v);
  }

  lemma FreeNegationMembers(t: Value)
    ensures FreeNegation(t).Obj?
    ensures var m := FreeNegation(t).members;
      && "type" in m && "not" in m && UNEVALUATED in m
      && m["type"] == t && m["not"] == FreeSchema(t, Bool(false)) && m[UNEVALUATED] == Bool(true)
      && forall k :: k in m ==> k == "type" || k == "not" || k == UNEVALUATED
  {
  }

  lemma FreeNegationAccepts(c: Context, depth: nat, t: Value, v: Value)
    requires TakesObjects(c, t) && v.Obj? && !Accepts(c, depth, FreeSchema(t, Bool(false)), v)
    ensures Accepts(c, depth, FreeNegation(t), v)
  {
    NoOtherTurns();
    KindsOfSchemas();
    KindsOfAssertions();
    FreeNegationMembers(t);
    hide KindOf, FreeNegation, FreeSchema, Evaluated, Normalized, FreeForms;
    var s := FreeNegation(t);
    AllPassing(c, depth, s, v);
    assert OneKeyword(c, depth, s, "not", v);
    hide OneKeyword;
    assert Keyword(c, depth, s, "type", v) && Keyword(c, depth, s, "not", v) && Keyword(c, depth, s, UNEVALUATED, v);
  }

  lemma FreeNegationRefuses(c: Context, depth: nat, t: Value, v: Value)
    requires Accepts(NormalizedContext(c), depth, Normalized(FreeSchema(t, Bool(false))), v)
    ensures !Accepts(NormalizedContext(c), depth, Normalized(FreeNegation(t)), v)
  {
    NoOtherTurns();
    FreeNegationMembers(t);
    hide KindOf, FreeNegation, FreeSchema, Evaluated, Normalized, NormalizedMembers;
    var d, s := NormalizedContext(c), FreeNegation(t);
    MembersOfNormalized(s);
    assert !OneKeyword(d, depth, Normalized(s), "not", v);
    hide OneKeyword;
    assert !Keyword(d, depth, Normalized(s), "not", v);
  }
}
