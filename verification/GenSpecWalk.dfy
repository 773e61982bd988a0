/** The normalizer as it runs, on decoded maps that it changes in place (tools/genspec/main.go).

A `Tree` records which map object sits where in the decoded document; encoding/json never makes
two places share one, which is `Distinct`. */
module GenSpecWalk {
  import opened Values
  import opened GenSpec

  /** A decoded value: a map is an object of the heap. */
  datatype Node = Scalar(v: Value) | List(items: seq<Node>) | Map(dict: Dict)

  class Dict {
    var members: map<string, Node>

    constructor (members: map<string, Node>)
      ensures this.members == members
    {
      this.members := members;
    }
  }

  datatype Tree = Leaf(v: Value) | Branches(trees: seq<Tree>) | At(dict: Dict, subs: map<string, Tree>)

  /** The map objects of the tree. */
  ghost function Foot(t: Tree): set<Dict>
    decreases t, 1
  {
    if t.At? then {t.dict} + Below(t) else Below(t)
  }

  ghost function Below(t: Tree): set<Dict>
    decreases t, 0
  {
    match t
    case Leaf(_) => {}
    case Branches(trees) => set i, d | 0 <= i < |trees| && d in Foot(trees[i]) :: d
    case At(_, subs) => set k, d | k in subs && d in Foot(subs[k]) :: d
  }

  /** No map object is in two places. */
  ghost predicate Distinct(t: Tree) {
    match t
    case Leaf(_) => true
    case Branches(trees) =>
      && (forall i :: 0 <= i < |trees| ==> Distinct(trees[i]))
      && (forall i, j :: 0 <= i < j < |trees| ==> Foot(trees[i]) !! Foot(trees[j]))
    case At(dict, subs) =>
      && (forall k :: k in subs ==> Distinct(subs[k]) && dict !in Foot(subs[k]))
      && (forall j, k :: j in subs && k in subs && j != k ==> Foot(subs[j]) !! Foot(subs[k]))
  }

  lemma SubsInFoot(t: Tree)
    ensures t.Branches? ==> forall i :: 0 <= i < |t.trees| ==> Foot(t.trees[i]) <= Foot(t)
    ensures t.At? ==> t.dict in Foot(t) && forall k :: k in t.subs ==> Foot(t.subs[k]) <= Foot(t)
  {
  }

  /** The node is laid out in the heap as the tree says. */
  ghost predicate Matches(n: Node, t: Tree)
    reads Foot(t)
    decreases t
  {
    SubsInFoot(t);
    match t
    case Leaf(v) => n == Scalar(v)
    case Branches(trees) =>
      n.List? && |n.items| == |trees| && forall i :: 0 <= i < |trees| ==> Matches(n.items[i], trees[i])
    case At(dict, subs) =>
      && n == Map(dict) && dict.members.Keys == subs.Keys
      && forall k :: k in subs ==> Matches(dict.members[k], subs[k])
  }

  /** The leaves are neither lists nor objects. */
  ghost predicate Scalars(t: Tree) {
    match t
    case Leaf(v) => !v.Arr? && !v.Obj?
    case Branches(trees) => forall i :: 0 <= i < |trees| ==> Scalars(trees[i])
    case At(_, subs) => forall k :: k in subs ==> Scalars(subs[k])
  }

  ghost function ValueOf(t: Tree): Value {
    match t
    case Leaf(v) => v
    case Branches(trees) => Arr(seq(|trees|, i requires 0 <= i < |trees| => ValueOf(trees[i])))
    case At(_, subs) => Obj(map k | k in subs :: ValueOf(subs[k]))
  }

  /** The layout after the walk: the same map objects in the same places. */
  ghost function Explicit(t: Tree): Tree {
    match t
    case Leaf(_) => t
    case Branches(trees) => Branches(seq(|trees|, i requires 0 <= i < |trees| => Explicit(trees[i])))
    case At(dict, subs) =>
      var below := map k | k in subs :: Explicit(subs[k]);
      At(dict, if FreeForm(ValueOf(t).members) then below[ADDITIONAL := Leaf(Bool(true))] else below)
  }

  /** What the walk leaves in the heap is the normalized document. */
  lemma {:induction false} ExplicitIsNormalized(t: Tree)
    requires Scalars(t)
    ensures ValueOf(Explicit(t)) == Normalized(ValueOf(t))
    decreases t
  {
    match t
    case Leaf(_) =>
    case Branches(trees) =>
      forall i | 0 <= i < |trees| ensures ValueOf(Explicit(t)).items[i] == Normalized(ValueOf(t)).items[i] {
        ExplicitIsNormalized(trees[i]);
      }
      assert ValueOf(Explicit(t)).items == Normalized(ValueOf(t)).items;
    case At(dict, subs) =>
      forall k | k in subs ensures ValueOf(Explicit(subs[k])) == Normalized(ValueOf(subs[k])) {
        ExplicitIsNormalized(subs[k]);
      }
      MembersAreNormalized(t);
  }

  lemma MembersAreNormalized(t: Tree)
    requires t.At? && forall k :: k in t.subs ==> ValueOf(Explicit(t.subs[k])) == Normalized(ValueOf(t.subs[k]))
    ensures ValueOf(Explicit(t)) == Normalized(ValueOf(t))
  {
    SubsOfExplicit(t);
    var v, members := ValueOf(t), ValueOf(Explicit(t)).members;
    assert ValueOf(Leaf(Bool(true))) == Bool(true);
    assert members.Keys == Explicit(t).subs.Keys && v.members.Keys == t.subs.Keys;
    assert forall k | k in members :: members[k] == ValueOf(Explicit(t).subs[k]);
    hide Explicit, FreeForm, ValueOf;
    IsNormalizedObject(v, members);
  }

  lemma IsNormalizedObject(v: Value, members: map<string, Value>)
    requires v.Obj? && members.Keys == if FreeForm(v.members) then v.members.Keys + {ADDITIONAL} else v.members.Keys
    requires forall k :: k in members ==> members[k] == if k in v.members then Normalized(v.members[k]) else Bool(true)
    requires FreeForm(v.members) ==> ADDITIONAL !in v.members
    ensures Normalized(v) == Obj(members)
  {
    hide FreeForm;
    assert members == NormalizedMembers(v);
  }

  lemma {:induction false} ExplicitKeepsScalars(t: Tree)
    requires Scalars(t)
    ensures Scalars(Explicit(t))
    decreases t
  {
    match t
    case Leaf(_) =>
    case Branches(trees) =>
      forall i | 0 <= i < |trees| ensures Scalars(Explicit(trees[i])) {
        ExplicitKeepsScalars(trees[i]);
      }
    case At(dict, subs) =>
      forall k | k in subs ensures Scalars(Explicit(subs[k])) {
        ExplicitKeepsScalars(subs[k]);
      }
      SubsOfExplicit(t);
  }

  /** The layout after the walk is its own layout after the walk. */
  lemma {:induction false} ExplicitTwice(t: Tree)
    requires Scalars(t)
    ensures Explicit(Explicit(t)) == Explicit(t)
    decreases t
  {
    match t
    case Leaf(_) =>
    case Branches(trees) =>
      forall i | 0 <= i < |trees| ensures Explicit(Explicit(trees[i])) == Explicit(trees[i]) {
        ExplicitTwice(trees[i]);
      }
      assert Explicit(Explicit(t)).trees == Explicit(t).trees;
    case At(dict, subs) =>
      forall k | k in subs ensures Explicit(Explicit(subs[k])) == Explicit(subs[k]) {
        ExplicitTwice(subs[k]);
      }
      SubsTwice(t);
  }

  lemma ExplicitIsNotFree(t: Tree)
    requires t.At? && Scalars(t)
    ensures Explicit(t).At? && !FreeForm(ValueOf(Explicit(t)).members)
  {
    hide FreeForm, Scalars;
    ExplicitIsNormalized(t);
    NormalizedIsNotFreeForm(ValueOf(t));
  }

  lemma LeafTwice(v: Value)
    ensures Explicit(Leaf(v)) == Leaf(v)
  {
  }

  lemma SubsTwice(t: Tree)
    requires t.At? && Scalars(t) && forall k :: k in t.subs ==> Explicit(Explicit(t.subs[k])) == Explicit(t.subs[k])
    ensures Explicit(Explicit(t)) == Explicit(t)
  {
    hide Explicit, FreeForm, ValueOf, Scalars;
    var u := Explicit(t);
    SubsOfExplicit(t);
    SubsOfExplicit(u);
    ExplicitIsNotFree(t);
    LeafTwice(Bool(true));
    assert Explicit(u).subs == u.subs;
  }

  /** u is laid out like t, but for members without map objects. */
  ghost predicate SameLayout(t: Tree, u: Tree)
    requires t.At? && u.At?
  {
    && t.dict == u.dict
    && (forall k :: k in t.subs ==> k in u.subs && Foot(u.subs[k]) == Foot(t.subs[k]))
    && (forall k :: k in u.subs ==> k in t.subs || Foot(u.subs[k]) == {})
    && (forall k :: k in u.subs ==> Distinct(u.subs[k]))
  }

  lemma SameFoot(t: Tree, u: Tree)
    requires t.At? && u.At? && SameLayout(t, u)
    ensures Foot(u) == Foot(t)
  {
    forall d ensures d in Below(t) <==> d in Below(u) {
      if d in Below(t) {
        var k :| k in t.subs && d in Foot(t.subs[k]);
        assert k in u.subs && d in Foot(u.subs[k]);
      }
      if d in Below(u) {
        var k :| k in u.subs && d in Foot(u.subs[k]);
        assert k in t.subs && d in Foot(t.subs[k]);
      }
    }
  }

  lemma StaysDistinct(t: Tree, u: Tree)
    requires t.At? && u.At? && SameLayout(t, u) && Distinct(t)
    ensures Distinct(u)
  {
    hide Foot, Below;
    forall j, k | j in u.subs && k in u.subs && j != k ensures Foot(u.subs[j]) !! Foot(u.subs[k]) {
    }
  }

  /** The walk moves no map object and shares none, so it can run again. */
  lemma {:induction false} ExplicitKeepsLayout(t: Tree)
    requires Distinct(t)
    ensures Foot(Explicit(t)) == Foot(t) && Distinct(Explicit(t))
    decreases t
  {
    match t
    case Leaf(_) =>
    case Branches(trees) =>
      forall i | 0 <= i < |trees| ensures Foot(Explicit(trees[i])) == Foot(trees[i]) && Distinct(Explicit(trees[i])) {
        ExplicitKeepsLayout(trees[i]);
      }
      BranchesKeepLayout(trees);
    case At(dict, subs) =>
      forall k | k in subs ensures Foot(Explicit(subs[k])) == Foot(subs[k]) && Distinct(Explicit(subs[k])) {
        ExplicitKeepsLayout(subs[k]);
      }
      SubsKeepLayout(t);
  }

  lemma BranchesKeepLayout(trees: seq<Tree>)
    requires Distinct(Branches(trees))
    requires forall i :: 0 <= i < |trees| ==> Foot(Explicit(trees[i])) == Foot(trees[i]) && Distinct(Explicit(trees[i]))
    ensures var t := Branches(trees); Foot(Explicit(t)) == Foot(t) && Distinct(Explicit(t))
  {
    var t := Branches(trees);
    var u := Explicit(t);
    assert forall i | 0 <= i < |trees| :: u.trees[i] == Explicit(trees[i]);
    forall d ensures d in Below(t) <==> d in Below(u) {
      if d in Below(u) {
        var i :| 0 <= i < |u.trees| && d in Foot(u.trees[i]);
        assert d in Foot(trees[i]);
      }
      if d in Below(t) {
        var i :| 0 <= i < |trees| && d in Foot(trees[i]);
        assert d in Foot(u.trees[i]);
      }
    }
  }

  lemma SubsKeepLayout(t: Tree)
    requires t.At? && Distinct(t)
    requires forall k :: k in t.subs ==> Foot(Explicit(t.subs[k])) == Foot(t.subs[k]) && Distinct(Explicit(t.subs[k]))
    ensures Foot(Explicit(t)) == Foot(t) && Distinct(Explicit(t))
  {
    hide Explicit, Foot, Below, Distinct, FreeForm, ValueOf;
    SubsOfExplicit(t);
    NothingInLeaf(Bool(true));
    SameFoot(t, Explicit(t));
    StaysDistinct(t, Explicit(t));
  }

  lemma NothingInLeaf(v: Value)
    ensures Foot(Leaf(v)) == {} && Distinct(Leaf(v))
  {
  }

  /** What the walk leaves under each name. */
  lemma SubsOfExplicit(t: Tree)
    requires t.At?
    ensures Explicit(t).At? && Explicit(t).dict == t.dict
    ensures forall k :: k in t.subs ==> k in Explicit(t).subs && Explicit(t).subs[k] == Explicit(t.subs[k])
    ensures forall k :: k in Explicit(t).subs ==> k in t.subs || Explicit(t).subs[k] == Leaf(Bool(true))
    ensures Explicit(t).subs.Keys == if FreeForm(ValueOf(t).members) then t.subs.Keys + {ADDITIONAL} else t.subs.Keys
    ensures FreeForm(ValueOf(t).members) ==> ADDITIONAL !in t.subs
  {
    if FreeForm(ValueOf(t).members) {
      assert ADDITIONAL in COMPOSING;
      assert ValueOf(t).members.Keys == t.subs.Keys;
    }
  }

  // ---------- The code ----------

  /** freeForm */
  method IsFreeForm(x: Dict, ghost t: Tree) returns (free: bool)
    requires Matches(Map(x), t) && Scalars(t)
    ensures free == FreeForm(ValueOf(t).members)
  {
    hide Foot, Below;
    ghost var members := ValueOf(t).members;
    assert members.Keys == x.members.Keys;
    var isObject := false;
    if "type" in x.members {
      isObject := IsObjectTypeNode(x.members["type"], t.subs["type"]);
    }
    if !isObject {
      return false;
    }
    for i := 0 to |COMPOSING|
      invariant forall j :: 0 <= j < i ==> COMPOSING[j] !in x.members
    {
      if COMPOSING[i] in x.members {
        assert COMPOSING[i] in COMPOSING;
        return false;
      }
    }
    return true;
  }

  method IsObjectTypeNode(n: Node, ghost t: Tree) returns (b: bool)
    requires Matches(n, t) && Scalars(t)
    ensures b == IsObjectType(ValueOf(t))
  {
    match n
    case Scalar(v) => b := v == Str("object");
    case List(items) =>
      b := Scalar(Str("object")) in items;
      ListHasText(items, t, "object");
    case Map(_) => b := false;
  }

  lemma ListHasText(items: seq<Node>, t: Tree, s: string)
    requires Matches(List(items), t) && Scalars(t)
    ensures ValueOf(t).Arr?
    ensures Scalar(Str(s)) in items <==> Str(s) in ValueOf(t).items
  {
    forall i | 0 <= i < |items| ensures items[i] == Scalar(Str(s)) <==> ValueOf(t).items[i] == Str(s) {
      assert Matches(items[i], t.trees[i]);
    }
  }

  lemma TreesAreApart(t: Tree)
    requires t.Branches? && Distinct(t)
    ensures forall i :: 0 <= i < |t.trees| ==> Distinct(t.trees[i]) && Foot(t.trees[i]) <= Foot(t)
    ensures forall i :: 0 <= i < |t.trees| ==> Foot(Explicit(t.trees[i])) == Foot(t.trees[i])
    ensures forall i, j :: 0 <= i < |t.trees| && 0 <= j < |t.trees| && i != j ==> Foot(t.trees[i]) !! Foot(t.trees[j])
  {
    hide Explicit;
    forall i | 0 <= i < |t.trees| ensures Foot(Explicit(t.trees[i])) == Foot(t.trees[i]) {
      ExplicitKeepsLayout(t.trees[i]);
    }
  }

  lemma SubsAreApart(t: Tree)
    requires t.At? && Distinct(t)
    ensures t.dict in Foot(t)
    ensures forall k :: k in t.subs ==> Distinct(t.subs[k]) && Foot(t.subs[k]) <= Foot(t) && t.dict !in Foot(t.subs[k])
    ensures forall k :: k in t.subs ==> Foot(Explicit(t.subs[k])) == Foot(t.subs[k])
    ensures forall j, k :: j in t.subs && k in t.subs && j != k ==> Foot(t.subs[j]) !! Foot(t.subs[k])
  {
    hide Explicit;
    forall k | k in t.subs ensures Foot(Explicit(t.subs[k])) == Foot(t.subs[k]) {
      ExplicitKeepsLayout(t.subs[k]);
    }
  }

  /** Whatever is laid out in the heap is allocated there. */
  lemma {:induction false} FootIsAllocated(n: Node, t: Tree)
    requires Matches(n, t)
    ensures forall d :: d in Foot(t) ==> allocated(d)
    decreases t
  {
    forall d | d in Foot(t) ensures allocated(d) {
      assert d in Below(t) || (t.At? && d == t.dict);
      match t
      case Leaf(_) =>
      case Branches(trees) =>
        var i :| 0 <= i < |trees| && d in Foot(trees[i]);
        FootIsAllocated(n.items[i], trees[i]);
      case At(dict, subs) =>
        if d != dict {
          var k :| k in subs && d in Foot(subs[k]);
          FootIsAllocated(dict.members[k], subs[k]);
        }
    }
  }

  /** The free-form objects of the document, and of the first i elements or of some members of it. */
  ghost function Count(t: Tree): nat {
    FreeForms(ValueOf(t))
  }

  ghost function CountItems(t: Tree, i: nat): nat
    requires t.Branches? && i <= |t.trees|
  {
    InItems(ValueOf(t), i)
  }

  ghost function CountMembers(t: Tree, keys: set<string>): nat
    requires t.At? && keys <= t.subs.Keys
  {
    InMembers(ValueOf(t), keys)
  }

  lemma CountOfItem(t: Tree, i: nat)
    requires t.Branches? && i < |t.trees|
    ensures CountItems(t, 0) == 0
    ensures CountItems(t, i + 1) == CountItems(t, i) + Count(t.trees[i])
  {
  }

  lemma CountOfMember(t: Tree, keys: set<string>, k: string)
    requires t.At? && keys <= t.subs.Keys && k in keys
    ensures CountMembers(t, keys) == Count(t.subs[k]) + CountMembers(t, keys - {k})
    ensures CountMembers(t, {}) == 0
  {
    CountAnyOrder(ValueOf(t), keys, k);
  }

  /** walk: sets the missing member on every free-form map below the node, and counts them. */
  method Walk(node: Node, ghost t: Tree) returns (n: nat)
    requires Matches(node, t) && Distinct(t) && Scalars(t)
    modifies Foot(t)
    ensures Matches(node, Explicit(t))
    ensures n == Count(t)
    decreases Foot(t), t, 2
  {
    match node
    case Map(x) => n := WalkMap(x, t);
    case List(items) => n := WalkItems(items, t);
    case Scalar(_) => n := 0;
  }

  lemma PartsOfBranches(t: Tree)
    requires t.Branches?
    ensures Explicit(t).Branches? && |Explicit(t).trees| == |t.trees|
    ensures forall j :: 0 <= j < |t.trees| ==> Explicit(t).trees[j] == Explicit(t.trees[j])
    ensures Scalars(t) ==> forall j :: 0 <= j < |t.trees| ==> Scalars(t.trees[j])
  {
  }

  /** The elements of a list while the walk is at it: those before i are done. */
  ghost predicate HalfItems(items: seq<Node>, t: Tree, i: nat)
    requires t.Branches? && Distinct(t)
    reads Foot(t)
  {
    TreesAreApart(t);
    && |items| == |t.trees|
    && forall j :: 0 <= j < |items| ==> Matches(items[j], if j < i then Explicit(t.trees[j]) else t.trees[j])
  }

  lemma HalfItemsAreAllocated(items: seq<Node>, t: Tree, i: nat)
    requires t.Branches? && Distinct(t) && HalfItems(items, t, i)
    ensures forall j :: 0 <= j < |items| ==> forall d :: d in Foot(t.trees[j]) ==> allocated(d)
  {
    hide Foot, Below, Matches, Explicit, Distinct;
    TreesAreApart(t);
    forall j | 0 <= j < |items| ensures forall d :: d in Foot(t.trees[j]) ==> allocated(d) {
      FootIsAllocated(items[j], if j < i then Explicit(t.trees[j]) else t.trees[j]);
    }
  }

  lemma ItemsStartAndEnd(items: seq<Node>, t: Tree)
    requires t.Branches? && Distinct(t)
    ensures Matches(List(items), t) ==> HalfItems(items, t, 0)
    ensures HalfItems(items, t, |t.trees|) ==> Matches(List(items), Explicit(t))
  {
    hide Foot, Below, Distinct;
    PartsOfBranches(t);
  }

  method WalkItem(items: seq<Node>, ghost t: Tree, i: nat) returns (n: nat)
    requires t.Branches? && Distinct(t) && Scalars(t) && HalfItems(items, t, i) && i < |items|
    modifies Foot(t.trees[i])
    ensures HalfItems(items, t, i + 1)
    ensures n == Count(t.trees[i])
    decreases Foot(t.trees[i]), t.trees[i], 3
  {
    TreesAreApart(t);
    HalfItemsAreAllocated(items, t, i);
    assert Scalars(t.trees[i]);
    hide Foot, Below, Distinct, Explicit, FreeForm, ValueOf, Scalars, Count, Matches;
    n := Walk(items[i], t.trees[i]);
  }

  lemma ListIsBranches(items: seq<Node>, t: Tree)
    requires Matches(List(items), t)
    ensures t.Branches? && |items| == |t.trees|
  {
  }

  lemma CountOfBranches(t: Tree)
    requires t.Branches?
    ensures Count(t) == CountItems(t, |t.trees|) && CountItems(t, 0) == 0
  {
  }

  method WalkItems(items: seq<Node>, ghost t: Tree) returns (n: nat)
    requires Matches(List(items), t) && Distinct(t) && Scalars(t)
    modifies Foot(t)
    ensures Matches(List(items), Explicit(t))
    ensures n == Count(t)
    decreases Foot(t), t, 1
  {
    hide Foot, Below, Distinct, Explicit, FreeForm, ValueOf, Scalars, Count, CountItems, HalfItems, FreeForms, InItems, Matches;
    ListIsBranches(items, t);
    CountOfBranches(t);
    TreesAreApart(t);
    ItemsStartAndEnd(items, t);
    n := 0;
    for i := 0 to |items|
      invariant HalfItems(items, t, i) && n == CountItems(t, i)
    {
      CountOfItem(t, i);
      var below := WalkItem(items, t, i);
      n := n + below;
    }
    ItemsStartAndEnd(items, t);
  }

  /** The tree of a map once the member is set on it. */
  ghost function Full(t: Tree): Tree
    requires t.At?
  {
    At(t.dict, if FreeForm(ValueOf(t).members) then t.subs[ADDITIONAL := Leaf(Bool(true))] else t.subs)
  }

  lemma FullKeepsLayout(t: Tree)
    requires t.At? && Distinct(t)
    ensures Distinct(Full(t)) && Foot(Full(t)) == Foot(t)
  {
    hide Foot, Below, Distinct;
    NothingInLeaf(Bool(true));
    if FreeForm(ValueOf(t).members) {
      SubsOfFreeForm(t);
    }
    SubsAreApart(t);
    SameFoot(t, Full(t));
    StaysDistinct(t, Full(t));
  }

  lemma SubsOfFreeForm(t: Tree)
    requires t.At? && FreeForm(ValueOf(t).members)
    ensures ADDITIONAL !in t.subs
  {
    assert ADDITIONAL in COMPOSING;
    assert ValueOf(t).members.Keys == t.subs.Keys;
  }

  lemma {:induction false} CountsAgree(v: Value, w: Value, keys: set<string>)
    requires v.Obj? && w.Obj? && keys <= v.members.Keys && keys <= w.members.Keys
    requires forall k :: k in keys ==> v.members[k] == w.members[k]
    ensures InMembers(v, keys) == InMembers(w, keys)
    decreases |keys|
  {
    if keys != {} {
      var k :| k in keys;
      CountAnyOrder(v, keys, k);
      CountAnyOrder(w, keys, k);
      CountsAgree(v, w, keys - {k});
    }
  }

  /** The member set on a free-form map adds nothing to the count below it. */
  lemma CountOfFull(t: Tree)
    requires t.At?
    ensures Full(t).At?
    ensures Count(t) == CountMembers(Full(t), Full(t).subs.Keys) + if FreeForm(ValueOf(t).members) then 1 else 0
  {
    var v, w := ValueOf(t), ValueOf(Full(t));
    CountOfObject(v);
    assert v.members.Keys == t.subs.Keys && w.members.Keys == Full(t).subs.Keys;
    hide FreeForm;
    if FreeForm(v.members) {
      SubsOfFreeForm(t);
      CountAnyOrder(w, w.members.Keys, ADDITIONAL);
      assert ValueOf(Leaf(Bool(true))) == Bool(true) && FreeForms(Bool(true)) == 0;
      assert w.members.Keys - {ADDITIONAL} == v.members.Keys;
      CountsAgree(v, w, v.members.Keys);
    } else {
      assert Full(t) == t;
    }
  }

  lemma CountOfObject(v: Value)
    requires v.Obj?
    ensures FreeForms(v) == InMembers(v, v.members.Keys) + if FreeForm(v.members) then 1 else 0
  {
  }

  lemma SubsOfFull(t: Tree)
    requires t.At? && Scalars(t)
    ensures Scalars(Full(t))
    ensures forall k :: k in Full(t).subs ==> k in Explicit(t).subs && Explicit(t).subs[k] == Explicit(Full(t).subs[k])
    ensures Explicit(t).At? && Explicit(t).dict == t.dict && Explicit(t).subs.Keys == Full(t).subs.Keys
  {
    if FreeForm(ValueOf(t).members) {
      SubsOfFreeForm(t);
    }
  }

  /** The members of a map while the walk is at it: those to do are as they were. */
  ghost predicate Half(members: map<string, Node>, t: Tree, todo: set<string>)
    requires t.At? && Distinct(t)
    reads Foot(t)
  {
    SubsAreApart(t);
    && members.Keys == t.subs.Keys
    && forall k :: k in t.subs ==> Matches(members[k], if k in todo then t.subs[k] else Explicit(t.subs[k]))
  }

  lemma HalfIsAllocated(members: map<string, Node>, t: Tree, todo: set<string>)
    requires t.At? && Distinct(t) && Half(members, t, todo)
    ensures forall k :: k in t.subs ==> forall d :: d in Foot(t.subs[k]) ==> allocated(d)
  {
    hide Foot, Below, Matches, Explicit, Distinct;
    SubsAreApart(t);
    forall k | k in t.subs ensures forall d :: d in Foot(t.subs[k]) ==> allocated(d) {
      FootIsAllocated(members[k], if k in todo then t.subs[k] else Explicit(t.subs[k]));
    }
  }

  /** The part of the loop that makes a free-form map explicit. */
  method SetAdditional(x: Dict, ghost t: Tree) returns (free: bool)
    requires Matches(Map(x), t) && Distinct(t) && Scalars(t)
    modifies x
    ensures free == FreeForm(ValueOf(t).members)
    ensures Distinct(Full(t)) && Half(x.members, Full(t), Full(t).subs.Keys)
  {
    FullKeepsLayout(t);
    SubsAreApart(t);
    FootIsAllocated(Map(x), t);
    free := IsFreeForm(x, t);
    hide Foot, Below, Distinct, Explicit, FreeForm, ValueOf;
    if free {
      x.members := x.members[ADDITIONAL := Scalar(Bool(true))];
    }
  }

  lemma WholeIsDone(x: Dict, t: Tree)
    requires t.At? && x == t.dict && Distinct(Full(t)) && Scalars(t) && Half(x.members, Full(t), {})
    ensures Matches(Map(x), Explicit(t))
  {
    hide Foot, Below, Distinct, FreeForm, ValueOf, Full, Explicit, Scalars;
    SubsOfFull(t);
  }

  method WalkMap(x: Dict, ghost t: Tree) returns (n: nat)
    requires Matches(Map(x), t) && Distinct(t) && Scalars(t)
    modifies Foot(t)
    ensures Matches(Map(x), Explicit(t))
    ensures n == Count(t)
    decreases Foot(t), t, 1
  {
    FullKeepsLayout(t);
    SubsOfFull(t);
    CountOfFull(t);
    assert t.dict == x && x in Foot(t);
    hide Foot, Below, Distinct, Explicit, FreeForm, ValueOf, Full, Scalars, Count, CountMembers, Half, Matches;
    var free := SetAdditional(x, t);
    n := WalkMembers(x, t);
    if free {
      n := n + 1;
    }
    WholeIsDone(x, t);
  }

  method WalkMember(members: map<string, Node>, ghost t: Tree, k: string, ghost todo: set<string>) returns (n: nat)
    requires t.At? && Distinct(t) && Scalars(t) && Half(members, t, todo) && k in t.subs && k in todo
    modifies Foot(t.subs[k])
    ensures Half(members, t, todo - {k})
    ensures n == Count(t.subs[k])
    decreases Foot(t.subs[k]), t.subs[k], 3
  {
    SubsAreApart(t);
    HalfIsAllocated(members, t, todo);
    assert Scalars(t.subs[k]);
    hide Foot, Below, Distinct, Explicit, FreeForm, ValueOf, Scalars, Count, Matches;
    n := Walk(members[k], t.subs[k]);
  }

  /** The loop over the members, in whatever order the map gives them. */
  method WalkMembers(x: Dict, ghost t: Tree) returns (n: nat)
    requires t.At? && x == t.dict && Distinct(Full(t)) && Scalars(Full(t)) && Foot(Full(t)) == Foot(t)
    requires Half(x.members, Full(t), Full(t).subs.Keys)
    modifies Foot(t)
    ensures x.members == old(x.members)
    ensures Half(x.members, Full(t), {})
    ensures n == CountMembers(Full(t), Full(t).subs.Keys)
    decreases Foot(t), t, 0
  {
    ghost var full := Full(t);
    SubsAreApart(full);
    assert CountMembers(full, {}) == 0;
    hide Foot, Below, Distinct, Explicit, FreeForm, Full, ValueOf, Scalars, Count, CountMembers, Half;
    n := 0;
    var members := x.members;
    var todo := members.Keys;
    while todo != {}
      invariant todo <= full.subs.Keys && x.members == members
      invariant Half(members, full, todo)
      invariant n + CountMembers(full, todo) == CountMembers(full, full.subs.Keys)
    {
      var k :| k in todo;
      CountOfMember(full, todo, k);
      var below := WalkMember(members, full, k, todo);
      n := n + below;
      todo := todo - {k};
    }
  }

  /** Normalize, between reading and writing the text: the heap holds the normalized document, laid
  out as before, and the result says how many objects were changed. */
  method Normalize(spec: Dict, ghost t: Tree) returns (n: nat)
    requires Matches(Map(spec), t) && Distinct(t) && Scalars(t)
    modifies Foot(t)
    ensures Matches(Map(spec), Explicit(t)) && Distinct(Explicit(t)) && Scalars(Explicit(t)) && Foot(Explicit(t)) == Foot(t)
    ensures ValueOf(Explicit(t)) == Normalized(ValueOf(t))
    ensures n == FreeForms(ValueOf(t))
  {
    n := Walk(Map(spec), t);
    ExplicitIsNormalized(t);
    ExplicitKeepsLayout(t);
    ExplicitKeepsScalars(t);
  }

  /** The layout that the walk leaves is one that it can run on and leaves alone, counting nothing. */
  lemma SecondWalkFindsNothing(t: Tree)
    requires Scalars(t)
    ensures Scalars(Explicit(t)) && Explicit(Explicit(t)) == Explicit(t)
    ensures Count(Explicit(t)) == 0
  {
    hide Explicit, ValueOf, Scalars;
    ExplicitKeepsScalars(t);
    ExplicitIsNormalized(t);
    ExplicitTwice(t);
    NoneLeft(ValueOf(t));
  }

  /** Normalizing the same heap again: nothing is counted and nothing changes. */
  method NormalizeAgain(spec: Dict, ghost t: Tree) returns (n: nat, again: nat)
    requires Matches(Map(spec), t) && Distinct(t) && Scalars(t)
    modifies Foot(t)
    ensures n == FreeForms(ValueOf(t)) && again == 0
    ensures Matches(Map(spec), Explicit(t)) && ValueOf(Explicit(t)) == Normalized(ValueOf(t))
  {
    hide Foot, Distinct, Explicit, ValueOf, Scalars, Matches;
    n := Normalize(spec, t);
    SecondWalkFindsNothing(t);
    again := Normalize(spec, Explicit(t));
  }
}
