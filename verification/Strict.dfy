/** The check for required members that comes before a typed decoding
(packages/api/v1alpha1/strict.go). */
module Strict {
  import opened Wrappers
  import opened Values
  import opened Order

  /** The required members of an object, and the shapes below it. */
  datatype Shape = Shape(members: seq<string>, objects: map<string, Shape>, lists: map<string, Shape>)

  // ---------- The check ----------

  /** The first required member that v lacks. */
  function Check(shape: Shape, v: Value): Option<string>
    decreases shape, 2, 0
  {
    if !v.Obj? then None
    else
      var own := FirstAbsent(shape.members, v);
      if own.Some? then own
      else
        var inObjects := CheckObjects(shape, SortedKeys(shape.objects.Keys), v);
        if inObjects.Some? then inObjects else CheckLists(shape, SortedKeys(shape.lists.Keys), v)
  }

  predicate Absent(v: Value, m: string)
    requires v.Obj?
  {
    m !in v.members || v.members[m].Null?
  }

  function FirstAbsent(members: seq<string>, v: Value): Option<string>
    requires v.Obj?
  {
    if members == [] then None
    else if Absent(v, members[0]) then Some(members[0])
    else FirstAbsent(members[1..], v)
  }

  function CheckObjects(shape: Shape, keys: seq<string>, v: Value): Option<string>
    requires v.Obj? && forall k :: k in keys ==> k in shape.objects
    decreases shape, 1, |keys|
  {
    if keys == [] then None
    else
      var first := Check(shape.objects[keys[0]], v.At(keys[0]));
      if first.Some? then first else CheckObjects(shape, keys[1..], v)
  }

  function CheckLists(shape: Shape, keys: seq<string>, v: Value): Option<string>
    requires v.Obj? && forall k :: k in keys ==> k in shape.lists
    decreases shape, 1, |keys|
  {
    if keys == [] then None
    else
      var first := if v.At(keys[0]).Arr? then CheckItems(shape.lists[keys[0]], v.At(keys[0]).items) else None;
      if first.Some? then first else CheckLists(shape, keys[1..], v)
  }

  function CheckItems(shape: Shape, items: seq<Value>): Option<string>
    decreases shape, 3, |items|
  {
    if items == [] then None
    else
      var first := Check(shape, items[0]);
      if first.Some? then first else CheckItems(shape, items[1..])
  }

  // ---------- What is missing, and in which order it is looked for ----------

  /** A required member of a value: its own, or one further down. */
  datatype Place =
    | Own(member: string)
    | In(child: string, rest: Place)
    | Of(list: string, index: nat, rest: Place)
  {
    function Name(): string {
      match this
      case Own(m) => m
      case In(_, rest) => rest.Name()
      case Of(_, _, rest) => rest.Name()
    }
  }

  /** v has the object that p leads to, and this object lacks the member. */
  predicate Lacks(shape: Shape, v: Value, p: Place)
    decreases p
  {
    v.Obj? &&
    match p
    case Own(m) => m in shape.members && Absent(v, m)
    case In(k, rest) => k in shape.objects && Lacks(shape.objects[k], v.At(k), rest)
    case Of(k, i, rest) =>
      && k in shape.lists && v.At(k).Arr? && i < |v.At(k).items|
      && Lacks(shape.lists[k], v.At(k).items[i], rest)
  }

  function Position(members: seq<string>, m: string): nat {
    if members == [] || members[0] == m then 0 else 1 + Position(members[1..], m)
  }

  /** The order of the places: an object's own members as they are listed, then the objects
  below it by name, then the lists below it by name and element by element. */
  predicate Earlier(shape: Shape, p: Place, q: Place)
    decreases p
  {
    match p
    case Own(m) => !q.Own? || Position(shape.members, m) < Position(shape.members, q.member)
    case In(k, rest) =>
      || q.Of?
      || (q.In? && (Less(k, q.child) || (k == q.child && k in shape.objects && Earlier(shape.objects[k], rest, q.rest))))
    case Of(k, i, rest) =>
      q.Of? && (Less(k, q.list)
                || (k == q.list && (i < q.index
                                    || (i == q.index && k in shape.lists && Earlier(shape.lists[k], rest, q.rest)))))
  }

  lemma {:induction false} EarlierAsymmetric(shape: Shape, p: Place, q: Place)
    ensures !(Earlier(shape, p, q) && Earlier(shape, q, p))
    decreases p
  {
    match p
    case Own(_) =>
    case In(k, rest) =>
      if q.In? {
        LessTotal(k, q.child);
        if k == q.child && k in shape.objects {
          EarlierAsymmetric(shape.objects[k], rest, q.rest);
        }
      }
    case Of(k, i, rest) =>
      if q.Of? {
        LessTotal(k, q.list);
        if k == q.list && i == q.index && k in shape.lists {
          EarlierAsymmetric(shape.lists[k], rest, q.rest);
        }
      }
  }

  // ---------- The check finds exactly the first place ----------

  /** Nothing lacks. */
  ghost predicate Whole(shape: Shape, v: Value) {
    forall p: Place :: !Lacks(shape, v, p)
  }

  /** What the check says of v is right: nothing lacks, or the first thing that lacks has this name. */
  ghost predicate IsFirst(shape: Shape, v: Value, found: Option<string>) {
    if found.None? then Whole(shape, v)
    else exists p: Place :: FirstPlace(shape, v, p) && p.Name() == found.value
  }

  ghost predicate FirstPlace(shape: Shape, v: Value, p: Place) {
    Lacks(shape, v, p) && forall q: Place :: Lacks(shape, v, q) ==> p == q || Earlier(shape, p, q)
  }

  /** p comes first among the places in the objects named. */
  ghost predicate FirstIn(shape: Shape, v: Value, keys: seq<string>, p: Place) {
    && p.In? && Lacks(shape, v, p)
    && forall k, r: Place :: k in keys && Lacks(shape, v, In(k, r)) ==> p == In(k, r) || Earlier(shape, p, In(k, r))
  }

  /** p comes first among the places in the lists named. */
  ghost predicate FirstOf(shape: Shape, v: Value, keys: seq<string>, p: Place) {
    && p.Of? && Lacks(shape, v, p)
    && forall k, i: nat, r: Place :: k in keys && Lacks(shape, v, Of(k, i, r)) ==>
         p == Of(k, i, r) || Earlier(shape, p, Of(k, i, r))
  }

  /** p comes first in element i, and no element before it lacks anything. */
  ghost predicate FirstItem(shape: Shape, items: seq<Value>, i: nat, p: Place) {
    && i < |items| && FirstPlace(shape, items[i], p)
    && forall j: nat, r: Place :: j < i ==> !Lacks(shape, items[j], r)
  }

  lemma {:induction false} FirstAbsentIsFirst(members: seq<string>, v: Value)
    requires v.Obj?
    ensures FirstAbsent(members, v).None? <==> forall m :: m in members ==> !Absent(v, m)
    ensures FirstAbsent(members, v).Some? ==>
      var m := FirstAbsent(members, v).value;
      m in members && Absent(v, m)
      && forall n :: n in members && Absent(v, n) ==> m == n || Position(members, m) < Position(members, n)
  {
    if members != [] {
      FirstAbsentIsFirst(members[1..], v);
      assert members == [members[0]] + members[1..];
    }
  }

  lemma {:induction false} ObjectsFindFirst(shape: Shape, keys: seq<string>, v: Value)
    requires v.Obj? && Ascending(keys) && forall k :: k in keys ==> k in shape.objects
    ensures CheckObjects(shape, keys, v).None? ==> forall k, r: Place :: k in keys ==> !Lacks(shape, v, In(k, r))
    ensures CheckObjects(shape, keys, v).Some? ==>
      exists p: Place :: FirstIn(shape, v, keys, p) && p.Name() == CheckObjects(shape, keys, v).value
    decreases shape, 1, |keys|
  {
    if keys != [] {
      var k0 := keys[0];
      assert keys == [k0] + keys[1..];
      CheckFindsFirst(shape.objects[k0], v.At(k0));
      var first := Check(shape.objects[k0], v.At(k0));
      if first.Some? {
        var p0: Place :| FirstPlace(shape.objects[k0], v.At(k0), p0) && p0.Name() == first.value;
        assert FirstIn(shape, v, keys, In(k0, p0));
      } else {
        ObjectsFindFirst(shape, keys[1..], v);
        if CheckObjects(shape, keys[1..], v).Some? {
          var p: Place :| FirstIn(shape, v, keys[1..], p) && p.Name() == CheckObjects(shape, keys[1..], v).value;
          assert FirstIn(shape, v, keys, p);
        }
      }
    }
  }

  lemma {:induction false} ItemsFindFirst(shape: Shape, items: seq<Value>)
    ensures CheckItems(shape, items).None? ==> forall i: nat, r: Place :: i < |items| ==> !Lacks(shape, items[i], r)
    ensures CheckItems(shape, items).Some? ==>
      exists i: nat, p: Place :: FirstItem(shape, items, i, p) && p.Name() == CheckItems(shape, items).value
    decreases shape, 6, |items|
  {
    if items != [] {
      var rest := items[1..];
      assert forall j | 0 < j < |items| :: items[j] == rest[j - 1];
      CheckFindsFirst(shape, items[0]);
      var first := Check(shape, items[0]);
      if first.Some? {
        var p: Place :| FirstPlace(shape, items[0], p) && p.Name() == first.value;
        assert FirstItem(shape, items, 0, p);
      } else {
        ItemsFindFirst(shape, rest);
        if CheckItems(shape, rest).Some? {
          var i: nat, p: Place :| FirstItem(shape, rest, i, p) && p.Name() == CheckItems(shape, rest).value;
          assert items[i + 1] == rest[i];
          assert FirstItem(shape, items, i + 1, p);
        }
      }
    }
  }

  lemma {:induction false} ListsFindFirst(shape: Shape, keys: seq<string>, v: Value)
    requires v.Obj? && Ascending(keys) && forall k :: k in keys ==> k in shape.lists
    ensures CheckLists(shape, keys, v).None? ==>
      forall k, i: nat, r: Place :: k in keys ==> !Lacks(shape, v, Of(k, i, r))
    ensures CheckLists(shape, keys, v).Some? ==>
      exists p: Place :: FirstOf(shape, v, keys, p) && p.Name() == CheckLists(shape, keys, v).value
    decreases shape, 1, |keys|
  {
    if keys != [] {
      var k0 := keys[0];
      assert keys == [k0] + keys[1..];
      var items := if v.At(k0).Arr? then v.At(k0).items else [];
      ItemsFindFirst(shape.lists[k0], items);
      var first := CheckItems(shape.lists[k0], items);
      if first.Some? {
        var i0: nat, p0: Place :| FirstItem(shape.lists[k0], items, i0, p0) && p0.Name() == first.value;
        assert FirstOf(shape, v, keys, Of(k0, i0, p0));
      } else {
        ListsFindFirst(shape, keys[1..], v);
        if CheckLists(shape, keys[1..], v).Some? {
          var p: Place :| FirstOf(shape, v, keys[1..], p) && p.Name() == CheckLists(shape, keys[1..], v).value;
          assert FirstOf(shape, v, keys, p);
        }
      }
    }
  }

  /** Anything but an object lacks nothing: its type is left to the typed decoding. */
  lemma NoObjectLacksNothing(shape: Shape, v: Value)
    requires !v.Obj?
    ensures Whole(shape, v)
  {
  }

  lemma OwnIsFirst(shape: Shape, v: Value, m: string)
    requires v.Obj? && FirstAbsent(shape.members, v) == Some(m)
    ensures FirstPlace(shape, v, Own(m))
  {
    FirstAbsentIsFirst(shape.members, v);
  }

  lemma FirstInIsFirst(shape: Shape, v: Value, p: Place)
    requires v.Obj? && FirstAbsent(shape.members, v).None?
    requires FirstIn(shape, v, SortedKeys(shape.objects.Keys), p)
    ensures FirstPlace(shape, v, p)
  {
    hide SortedKeys, FirstAbsent;
    FirstAbsentIsFirst(shape.members, v);
    forall q: Place | Lacks(shape, v, q) ensures p == q || Earlier(shape, p, q) {
      if q.In? {
        assert q == In(q.child, q.rest) && q.child in SortedKeys(shape.objects.Keys);
      }
    }
  }

  lemma FirstOfIsFirst(shape: Shape, v: Value, p: Place)
    requires v.Obj? && FirstAbsent(shape.members, v).None?
    requires forall k, r: Place :: k in SortedKeys(shape.objects.Keys) ==> !Lacks(shape, v, In(k, r))
    requires FirstOf(shape, v, SortedKeys(shape.lists.Keys), p)
    ensures FirstPlace(shape, v, p)
  {
    hide SortedKeys, FirstAbsent;
    FirstAbsentIsFirst(shape.members, v);
    forall q: Place | Lacks(shape, v, q) ensures p == q || Earlier(shape, p, q) {
      assert q.Of? ==> q == Of(q.list, q.index, q.rest) && q.list in SortedKeys(shape.lists.Keys);
    }
  }

  lemma NothingLacks(shape: Shape, v: Value)
    requires v.Obj? && FirstAbsent(shape.members, v).None?
    requires forall k, r: Place :: k in SortedKeys(shape.objects.Keys) ==> !Lacks(shape, v, In(k, r))
    requires forall k, i: nat, r: Place :: k in SortedKeys(shape.lists.Keys) ==> !Lacks(shape, v, Of(k, i, r))
    ensures Whole(shape, v)
  {
    hide SortedKeys, FirstAbsent;
    FirstAbsentIsFirst(shape.members, v);
    forall p: Place ensures !Lacks(shape, v, p) {
      match p
      case Own(_) =>
      case In(k, r) => assert k in shape.objects ==> k in SortedKeys(shape.objects.Keys);
      case Of(k, i, r) => assert k in shape.lists ==> k in SortedKeys(shape.lists.Keys);
    }
  }

  /** The check succeeds exactly when nothing lacks, and otherwise names the first member that
  lacks, in an order that the maps have no part in. */
  lemma {:induction false} CheckFindsFirst(shape: Shape, v: Value)
    ensures IsFirst(shape, v, Check(shape, v))
    decreases shape, 5, 0
  {
    hide SortedKeys, FirstAbsent, FirstIn, FirstOf, Lacks, CheckObjects, CheckLists, FirstPlace;
    if !v.Obj? {
      NoObjectLacksNothing(shape, v);
    } else {
      FirstAbsentIsFirst(shape.members, v);
      var own := FirstAbsent(shape.members, v);
      var objects, lists := SortedKeys(shape.objects.Keys), SortedKeys(shape.lists.Keys);
      if own.Some? {
        OwnIsFirst(shape, v, own.value);
      } else {
        ObjectsFindFirst(shape, objects, v);
        if CheckObjects(shape, objects, v).Some? {
          var p: Place :| FirstIn(shape, v, objects, p) && p.Name() == CheckObjects(shape, objects, v).value;
          FirstInIsFirst(shape, v, p);
        } else {
          ListsFindFirst(shape, lists, v);
          if CheckLists(shape, lists, v).Some? {
            var p: Place :| FirstOf(shape, v, lists, p) && p.Name() == CheckLists(shape, lists, v).value;
            FirstOfIsFirst(shape, v, p);
          } else {
            NothingLacks(shape, v);
          }
        }
      }
    }
  }

  // ---------- Values that lack nothing ----------

  lemma WholeIsAccepted(shape: Shape, v: Value)
    ensures Check(shape, v).None? <==> Whole(shape, v)
  {
    hide Check;
    CheckFindsFirst(shape, v);
  }

  ghost predicate WholeItems(shape: Shape, v: Value) {
    v.Arr? ==> forall i :: 0 <= i < |v.items| ==> Whole(shape, v.items[i])
  }

  lemma WholeFromParts(shape: Shape, v: Value)
    requires v.Obj? && forall m :: m in shape.members ==> !Absent(v, m)
    requires forall k :: k in shape.objects ==> Whole(shape.objects[k], v.At(k))
    requires forall k :: k in shape.lists ==> WholeItems(shape.lists[k], v.At(k))
    ensures Whole(shape, v)
  {
    forall p: Place ensures !Lacks(shape, v, p) {
      match p
      case Own(_) =>
      case In(k, rest) =>
        if k in shape.objects {
          assert !Lacks(shape.objects[k], v.At(k), rest);
        }
      case Of(k, i, rest) =>
        if k in shape.lists && v.At(k).Arr? && i < |v.At(k).items| {
          assert WholeItems(shape.lists[k], v.At(k));
          assert !Lacks(shape.lists[k], v.At(k).items[i], rest);
        }
    }
  }

  // ---------- What the required members are for ----------

  /** v is an object with all required members, and so is everything below it that is there:
  a child may be null or missing, an element may not. */
  ghost predicate Present(shape: Shape, v: Value) {
    && v.Obj?
    && (forall m :: m in shape.members ==> !Absent(v, m))
    && (forall k :: k in shape.objects ==> v.At(k).Null? || Present(shape.objects[k], v.At(k)))
    && (forall k :: k in shape.lists ==> v.At(k).Null? || PresentItems(shape.lists[k], v.At(k)))
  }

  ghost predicate PresentItems(shape: Shape, v: Value) {
    v.Arr? && forall i :: 0 <= i < |v.items| ==> Present(shape, v.items[i])
  }

  /** Children and elements of the right kind: an object or null, a list of objects or nulls or null. */
  ghost predicate Shaped(shape: Shape, v: Value) {
    && (v.Obj? || v.Null?)
    && (v.Obj? ==>
          && (forall k :: k in shape.objects ==> Shaped(shape.objects[k], v.At(k)))
          && (forall k :: k in shape.lists ==> v.At(k).Null? || ShapedItems(shape.lists[k], v.At(k))))
  }

  ghost predicate ShapedItems(shape: Shape, v: Value) {
    v.Arr? && forall i :: 0 <= i < |v.items| ==> Shaped(shape, v.items[i])
  }

  /** No null stands where an object is wanted: neither v nor an element of a list in it. */
  ghost predicate NoNullItems(shape: Shape, v: Value) {
    v.Obj? ==>
      && (forall k :: k in shape.objects ==> NoNullItems(shape.objects[k], v.At(k)))
      && (forall k :: k in shape.lists && v.At(k).Arr? ==> NoNullIn(shape.lists[k], v.At(k)))
  }

  ghost predicate NoNullIn(shape: Shape, v: Value)
    requires v.Arr?
  {
    forall i :: 0 <= i < |v.items| ==> !v.items[i].Null? && NoNullItems(shape, v.items[i])
  }

  lemma WholeBelow(shape: Shape, v: Value)
    requires Whole(shape, v) && v.Obj?
    ensures forall m :: m in shape.members ==> !Absent(v, m)
    ensures forall k :: k in shape.objects ==> Whole(shape.objects[k], v.At(k))
    ensures forall k :: k in shape.lists ==> WholeItems(shape.lists[k], v.At(k))
  {
    forall m | m in shape.members ensures !Absent(v, m) {
      assert !Lacks(shape, v, Own(m));
    }
    forall k, p: Place | k in shape.objects ensures !Lacks(shape.objects[k], v.At(k), p) {
      assert !Lacks(shape, v, In(k, p));
    }
    forall k | k in shape.lists ensures WholeItems(shape.lists[k], v.At(k)) {
      if v.At(k).Arr? {
        forall i: nat, p: Place | i < |v.At(k).items| ensures !Lacks(shape.lists[k], v.At(k).items[i], p) {
          assert !Lacks(shape, v, Of(k, i, p));
        }
      }
    }
  }

  /** The check lets through whatever is present, of any kind. */
  lemma {:induction false} PresentIsWhole(shape: Shape, v: Value)
    requires Present(shape, v)
    ensures Whole(shape, v)
    decreases shape
  {
    hide Whole, Absent;
    forall k | k in shape.objects ensures Whole(shape.objects[k], v.At(k)) {
      if v.At(k).Null? {
        NoObjectLacksNothing(shape.objects[k], v.At(k));
      } else {
        PresentIsWhole(shape.objects[k], v.At(k));
      }
    }
    forall k | k in shape.lists ensures WholeItems(shape.lists[k], v.At(k)) {
      if v.At(k).Arr? {
        assert PresentItems(shape.lists[k], v.At(k));
        forall i | 0 <= i < |v.At(k).items| ensures Whole(shape.lists[k], v.At(k).items[i]) {
          PresentIsWhole(shape.lists[k], v.At(k).items[i]);
        }
      }
    }
    WholeFromParts(shape, v);
  }

  /** Among values of the right kind, the ones that are present are exactly those that the check lets
  through, but for null itself and null elements. */
  lemma WholeIsPresent(shape: Shape, v: Value)
    requires Shaped(shape, v)
    ensures Present(shape, v) <==> Whole(shape, v) && !v.Null? && NoNullItems(shape, v)
  {
    hide Present, Shaped, Whole, NoNullItems;
    if Whole(shape, v) {
      WholeWithoutNull(shape, v);
    } else if Present(shape, v) {
      PresentIsWhole(shape, v);
    }
  }

  lemma {:induction false} WholeWithoutNull(shape: Shape, v: Value)
    requires Shaped(shape, v) && Whole(shape, v)
    ensures Present(shape, v) <==> !v.Null? && NoNullItems(shape, v)
    decreases shape
  {
    if v.Obj? {
      WholeBelow(shape, v);
      forall k | k in shape.objects && !v.At(k).Null?
        ensures Present(shape.objects[k], v.At(k)) <==> NoNullItems(shape.objects[k], v.At(k))
      {
        WholeWithoutNull(shape.objects[k], v.At(k));
      }
      forall k | k in shape.lists && v.At(k).Arr?
        ensures PresentItems(shape.lists[k], v.At(k)) <==> NoNullIn(shape.lists[k], v.At(k))
      {
        assert WholeItems(shape.lists[k], v.At(k)) && ShapedItems(shape.lists[k], v.At(k));
        forall i | 0 <= i < |v.At(k).items|
          ensures Present(shape.lists[k], v.At(k).items[i]) <==>
            !v.At(k).items[i].Null? && NoNullItems(shape.lists[k], v.At(k).items[i])
        {
          WholeWithoutNull(shape.lists[k], v.At(k).items[i]);
        }
      }
    }
  }

  // ---------- What the check does not look at ----------

  /** v and w are the same wherever the shape looks. */
  ghost predicate Alike(shape: Shape, v: Value, w: Value) {
    && v.Obj? == w.Obj?
    && (v.Obj? ==>
          && (forall m :: m in shape.members ==> Absent(v, m) == Absent(w, m))
          && (forall k :: k in shape.objects ==> Alike(shape.objects[k], v.At(k), w.At(k)))
          && (forall k :: k in shape.lists ==> AlikeLists(shape.lists[k], v.At(k), w.At(k))))
  }

  ghost predicate AlikeLists(shape: Shape, v: Value, w: Value) {
    && v.Arr? == w.Arr?
    && (v.Arr? ==> |v.items| == |w.items| && forall i :: 0 <= i < |v.items| ==> Alike(shape, v.items[i], w.items[i]))
  }

  lemma {:induction false} AlikeLackTheSame(shape: Shape, v: Value, w: Value, p: Place)
    requires Alike(shape, v, w)
    ensures Lacks(shape, v, p) == Lacks(shape, w, p)
    decreases p
  {
    match p
    case Own(_) =>
    case In(k, rest) =>
      if v.Obj? && k in shape.objects {
        AlikeLackTheSame(shape.objects[k], v.At(k), w.At(k), rest);
      }
    case Of(k, i, rest) =>
      if v.Obj? && k in shape.lists {
        assert AlikeLists(shape.lists[k], v.At(k), w.At(k));
        if v.At(k).Arr? && i < |v.At(k).items| {
          AlikeLackTheSame(shape.lists[k], v.At(k).items[i], w.At(k).items[i], rest);
        }
      }
  }

  /** The answer depends only on what the shape mentions. */
  lemma AlikeGetTheSameAnswer(shape: Shape, v: Value, w: Value)
    requires Alike(shape, v, w)
    ensures Check(shape, v) == Check(shape, w)
  {
    hide Check, Alike, Lacks;
    CheckFindsFirst(shape, v);
    CheckFindsFirst(shape, w);
    forall p: Place ensures Lacks(shape, v, p) == Lacks(shape, w, p) {
      AlikeLackTheSame(shape, v, w, p);
    }
    if Check(shape, v).Some? && Check(shape, w).Some? {
      var p: Place :| FirstPlace(shape, v, p) && p.Name() == Check(shape, v).value;
      var q: Place :| FirstPlace(shape, w, q) && q.Name() == Check(shape, w).value;
      EarlierAsymmetric(shape, p, q);
    }
  }

  lemma {:induction false} AlikeItself(shape: Shape, v: Value)
    ensures Alike(shape, v, v)
    decreases shape
  {
    if v.Obj? {
      forall k | k in shape.objects ensures Alike(shape.objects[k], v.At(k), v.At(k)) {
        AlikeItself(shape.objects[k], v.At(k));
      }
      forall k | k in shape.lists ensures AlikeLists(shape.lists[k], v.At(k), v.At(k)) {
        if v.At(k).Arr? {
          forall i | 0 <= i < |v.At(k).items| ensures Alike(shape.lists[k], v.At(k).items[i], v.At(k).items[i]) {
            AlikeItself(shape.lists[k], v.At(k).items[i]);
          }
        }
      }
    }
  }

  /** A member the shape does not mention never changes the answer. */
  lemma UnmentionedDoesNotMatter(shape: Shape, members: map<string, Value>, m: string, x: Value)
    requires m !in shape.members && m !in shape.objects && m !in shape.lists
    ensures Check(shape, Obj(members[m := x])) == Check(shape, Obj(members))
  {
    hide Check;
    var v, w := Obj(members[m := x]), Obj(members);
    forall k | k in shape.objects ensures Alike(shape.objects[k], v.At(k), w.At(k)) {
      AlikeItself(shape.objects[k], v.At(k));
    }
    forall k | k in shape.lists ensures AlikeLists(shape.lists[k], v.At(k), w.At(k)) {
      if v.At(k).Arr? {
        forall i | 0 <= i < |v.At(k).items| ensures Alike(shape.lists[k], v.At(k).items[i], w.At(k).items[i]) {
          AlikeItself(shape.lists[k], v.At(k).items[i]);
        }
      }
    }
    AlikeGetTheSameAnswer(shape, v, w);
  }

  // ---------- The shape of an app ----------

  function Leaf(members: seq<string>): Shape {
    Shape(members, map[], map[])
  }

  const GitSourceShape := Leaf(["repo"])
  const SourceShape := Shape([], map["git" := GitSourceShape], map[])
  const HealthCheckShape := Leaf(["path"])
  const RuntimeShape := Shape(["processes"], map["healthCheck" := HealthCheckShape], map[])
  const KeyRefShape := Leaf(["name", "key"])
  const EnvVarShape := Shape(["name"], map["fromSecret" := KeyRefShape, "fromService" := KeyRefShape], map[])
  const DomainShape := Leaf(["host"])
  const VolumeShape := Leaf(["name", "mountPath"])

  /** appSpecShape */
  const AppSpecShape := Shape(
    ["source", "runtime"],
    map["source" := SourceShape, "runtime" := RuntimeShape],
    map["env" := EnvVarShape, "domains" := DomainShape, "volumes" := VolumeShape])
}
