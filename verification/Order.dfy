/** The order of Go strings, and sets of strings listed in it. */
module Order {
  /** Byte by byte, a proper prefix first. */
  predicate Less(a: string, b: string) {
    if b == "" then false
    else if a == "" then true
    else if a[0] != b[0] then a[0] < b[0]
    else Less(a[1..], b[1..])
  }

  lemma {:induction false} LessTotal(a: string, b: string)
    ensures Less(a, b) || a == b || Less(b, a)
    ensures !(Less(a, b) && Less(b, a))
    ensures Less(a, b) ==> a != b
  {
    if a != "" && b != "" && a[0] == b[0] {
      LessTotal(a[1..], b[1..]);
      assert a[1..] == b[1..] ==> a == [a[0]] + a[1..] == b;
    }
  }

  lemma {:induction false} LessTransitive(a: string, b: string, c: string)
    requires Less(a, b) && Less(b, c)
    ensures Less(a, c)
  {
    if a != "" && a[0] == b[0] && b[0] == c[0] {
      LessTransitive(a[1..], b[1..], c[1..]);
    }
  }

  /** Strictly ascending: sorted and without duplicates. */
  predicate Ascending(f: seq<string>) {
    forall i, j :: 0 <= i < j < |f| ==> Less(f[i], f[j])
  }

  predicate Least(x: string, s: set<string>) {
    x in s && forall y | y in s :: x == y || Less(x, y)
  }

  lemma {:induction false} LeastExists(s: set<string>)
    requires s != {}
    ensures exists x :: Least(x, s)
  {
    var y :| y in s;
    if s == {y} {
      assert Least(y, s);
    } else {
      LeastExists(s - {y});
      var x :| Least(x, s - {y});
      LessTotal(x, y);
      if Less(y, x) {
        forall z | z in s ensures y == z || Less(y, z) {
          if z != y && z != x {
            LessTransitive(y, x, z);
          }
        }
        assert Least(y, s);
      } else {
        assert Least(x, s);
      }
    }
  }

  lemma LeastUnique(x: string, y: string, s: set<string>)
    requires Least(x, s) && Least(y, s)
    ensures x == y
  {
    LessTotal(x, y);
  }

  /** slices.Sorted(maps.Keys(m)) */
  function SortedKeys(s: set<string>): (keys: seq<string>)
    ensures forall k :: k in keys <==> k in s
    ensures Ascending(keys)
  {
    if s == {} then []
    else
      LeastExists(s);
      assert forall x, y :: Least(x, s) && Least(y, s) ==> x == y by {
        forall x, y | Least(x, s) && Least(y, s) ensures x == y {
          LeastUnique(x, y, s);
        }
      }
      var x :| Least(x, s);
      var rest := SortedKeys(s - {x});
      assert forall i :: 0 <= i < |rest| ==> Less(x, rest[i]) by {
        forall i | 0 <= i < |rest| ensures Less(x, rest[i]) {
          assert rest[i] in s - {x};
        }
      }
      [x] + rest
  }
}
