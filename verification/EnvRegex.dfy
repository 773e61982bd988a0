/** The two regular expressions of apps/console/src/lib/env.ts as they are written there, what they
match, and that the parser's tests of names and references are those. */
module EnvRegex {
  import opened Wrappers
  import opened Env

  datatype Regex = Class(chars: string) | Then(first: Regex, second: Regex) | Star(of: Regex) | Maybe(of: Regex)

  /** The whole of s matches r. */
  ghost predicate Matches(r: Regex, s: string)
    decreases r, |s|
  {
    match r
    case Class(chars) => |s| == 1 && s[0] in chars
    case Then(a, b) => exists i :: 0 <= i <= |s| && Matches(a, s[..i]) && Matches(b, s[i..])
    case Star(a) => s == "" || exists i :: 0 < i <= |s| && Matches(a, s[..i]) && Matches(r, s[i..])
    case Maybe(a) => s == "" || Matches(a, s)
  }

  const LOWER := "abcdefghijklmnopqrstuvwxyz"
  const UPPER := "ABCDEFGHIJKLMNOPQRSTUVWXYZ"
  const DIGITS := "0123456789"

  /** ^[A-Za-z_][A-Za-z0-9_]*$ */
  const NAME := Then(Class(UPPER + LOWER + "_"), Star(Class(UPPER + LOWER + DIGITS + "_")))

  /** [a-z0-9]([-a-z0-9]*[a-z0-9])? */
  const SECRET := Then(Class(LOWER + DIGITS), Maybe(Then(Star(Class("-" + LOWER + DIGITS)), Class(LOWER + DIGITS))))

  /** [-._a-zA-Z0-9]+ */
  const KEY := Then(Class("-._" + LOWER + UPPER + DIGITS), Star(Class("-._" + LOWER + UPPER + DIGITS)))

  /** ^@(SECRET)\/(KEY)$ */
  const SECRET_REF := Then(Class("@"), Then(SECRET, Then(Class("/"), KEY)))

  // ---------- Characters ----------

  lemma LowerIs(c: char)
    ensures c in LOWER <==> Lower(c)
  {
    hide LOWER;
    LowerAt();
    if Lower(c) {
      assert LOWER[c as int - 'a' as int] == c;
    }
  }

  lemma LowerAt()
    ensures |LOWER| == 26 && forall i :: 0 <= i < 26 ==> LOWER[i] as int == 'a' as int + i
  {
  }

  lemma UpperIs(c: char)
    ensures c in UPPER <==> 'A' <= c <= 'Z'
  {
    hide UPPER;
    UpperAt();
    if 'A' <= c <= 'Z' {
      assert UPPER[c as int - 'A' as int] == c;
    }
  }

  lemma UpperAt()
    ensures |UPPER| == 26 && forall i :: 0 <= i < 26 ==> UPPER[i] as int == 'A' as int + i
  {
  }

  lemma DigitIs(c: char)
    ensures c in DIGITS <==> Digit(c)
  {
    if Digit(c) {
      assert DIGITS[c as int - '0' as int] == c;
    }
  }

  lemma ClassesAre(c: char)
    ensures c in UPPER + LOWER + "_" <==> Letter(c) || c == '_'
    ensures c in UPPER + LOWER + DIGITS + "_" <==> Letter(c) || Digit(c) || c == '_'
    ensures c in LOWER + DIGITS <==> LowerOrDigit(c)
    ensures c in "-" + LOWER + DIGITS <==> LowerOrDigit(c) || c == '-'
    ensures c in "-._" + LOWER + UPPER + DIGITS <==> Letter(c) || Digit(c) || c == '-' || c == '.' || c == '_'
  {
    hide LOWER, UPPER, DIGITS;
    LowerIs(c);
    UpperIs(c);
    DigitIs(c);
  }

  // ---------- Matching ----------

  predicate All(chars: string, s: string) {
    forall i :: 0 <= i < |s| ==> s[i] in chars
  }

  lemma {:induction false} StarIsAll(chars: string, s: string)
    ensures Matches(Star(Class(chars)), s) <==> All(chars, s)
    decreases |s|
  {
    if s != "" {
      StarIsAll(chars, s[1..]);
      assert s[..1] == [s[0]];
      if All(chars, s) {
        assert Matches(Class(chars), s[..1]) && Matches(Star(Class(chars)), s[1..]);
      }
      if Matches(Star(Class(chars)), s) {
        var i :| 0 < i <= |s| && Matches(Class(chars), s[..i]) && Matches(Star(Class(chars)), s[i..]);
        assert i == 1 && s[..i][0] == s[0];
        assert forall k :: 0 < k < |s| ==> s[k] == s[1..][k - 1];
      }
    }
  }

  /** A class before anything takes the first character. */
  lemma ClassThen(chars: string, b: Regex, s: string)
    ensures Matches(Then(Class(chars), b), s) <==> s != "" && s[0] in chars && Matches(b, s[1..])
  {
    hide All;
    if s != "" {
      assert s[..1] == [s[0]];
      if s[0] in chars {
        assert Matches(Class(chars), s[..1]);
      }
    }
    if Matches(Then(Class(chars), b), s) {
      var i :| 0 <= i <= |s| && Matches(Class(chars), s[..i]) && Matches(b, s[i..]);
      assert i == 1;
    }
  }

  /** A class after anything takes the last. */
  lemma ThenClass(a: Regex, chars: string, s: string)
    ensures Matches(Then(a, Class(chars)), s) <==> s != "" && s[|s| - 1] in chars && Matches(a, s[..|s| - 1])
  {
    if s != "" {
      assert s[|s| - 1..] == [s[|s| - 1]];
      if s[|s| - 1] in chars {
        assert Matches(Class(chars), s[|s| - 1..]);
      }
    }
    if Matches(Then(a, Class(chars)), s) {
      var i :| 0 <= i <= |s| && Matches(a, s[..i]) && Matches(Class(chars), s[i..]);
      assert i == |s| - 1;
    }
  }

  // ---------- The parser's tests ----------

  lemma NameIsMatched(s: string)
    ensures ValidName(s) <==> Matches(NAME, s)
  {
    hide LOWER, UPPER, DIGITS, Letter, Digit, Matches;
    ClassThen(UPPER + LOWER + "_", Star(Class(UPPER + LOWER + DIGITS + "_")), s);
    forall c ensures c in UPPER + LOWER + "_" <==> Letter(c) || c == '_' { ClassesAre(c); }
    forall c ensures c in UPPER + LOWER + DIGITS + "_" <==> Letter(c) || Digit(c) || c == '_' { ClassesAre(c); }
    if s != "" {
      StarIsAll(UPPER + LOWER + DIGITS + "_", s[1..]);
      assert forall i :: 0 < i < |s| ==> s[i] == s[1..][i - 1];
    }
  }

  lemma KeyIsMatched(s: string)
    ensures SecretKey(s) <==> Matches(KEY, s)
  {
    hide LOWER, UPPER, DIGITS, Letter, Digit, Matches;
    var chars := "-._" + LOWER + UPPER + DIGITS;
    ClassThen(chars, Star(Class(chars)), s);
    forall c ensures c in chars <==> Letter(c) || Digit(c) || c == '-' || c == '.' || c == '_' { ClassesAre(c); }
    if s != "" {
      StarIsAll(chars, s[1..]);
      assert forall i :: 0 < i < |s| ==> s[i] == s[1..][i - 1];
    }
  }

  lemma SecretIsMatched(s: string)
    ensures SecretName(s) <==> Matches(SECRET, s)
  {
    hide LOWER, UPPER, DIGITS, LowerOrDigit, Matches;
    var ends, middle := LOWER + DIGITS, "-" + LOWER + DIGITS;
    ClassThen(ends, Maybe(Then(Star(Class(middle)), Class(ends))), s);
    forall c ensures c in ends <==> LowerOrDigit(c) { ClassesAre(c); }
    forall c ensures c in middle <==> LowerOrDigit(c) || c == '-' { ClassesAre(c); }
    if |s| > 0 {
      MaybeIs(Then(Star(Class(middle)), Class(ends)), s[1..]);
      ThenClass(Star(Class(middle)), ends, s[1..]);
    }
    if |s| > 1 {
      assert s[1..][|s| - 2] == s[|s| - 1];
      StarIsAll(middle, s[1..][..|s| - 2]);
      assert forall i :: 0 < i < |s| - 1 ==> s[i] == s[1..][..|s| - 2][i - 1];
    }
  }

  lemma MaybeIs(r: Regex, s: string)
    ensures Matches(Maybe(r), s) <==> s == "" || Matches(r, s)
  {
  }

  /** The name and the key of a reference, taken apart. */
  lemma Apart(s: string, i: nat)
    requires 0 < i <= |s| && s[0] == '@'
    ensures i < |s| && s[i] == '/' ==> s == Reference(SecretRef(s[1..i], s[i + 1..]))
  {
  }

  lemma Together(r: SecretRef)
    ensures var s := Reference(r);
      |s| == |r.name| + |r.key| + 2 && s[0] == '@' && s[1..][..|r.name|] == r.name && s[1..][|r.name|..] == "/" + r.key
  {
  }

  ghost predicate ThenAt(a: Regex, b: Regex, s: string, i: nat) {
    i <= |s| && Matches(a, s[..i]) && Matches(b, s[i..])
  }

  lemma ThenIs(a: Regex, b: Regex, s: string)
    ensures Matches(Then(a, b), s) <==> exists i :: ThenAt(a, b, s, i)
  {
    if i: nat :| ThenAt(a, b, s, i) {
      assert Matches(a, s[..i]) && Matches(b, s[i..]);
    }
    if Matches(Then(a, b), s) {
      var i :| 0 <= i <= |s| && Matches(a, s[..i]) && Matches(b, s[i..]);
      assert ThenAt(a, b, s, i);
    }
  }

  lemma MatchedIsReference(s: string) returns (r: SecretRef)
    requires Matches(SECRET_REF, s)
    ensures SecretName(r.name) && SecretKey(r.key) && s == Reference(r)
  {
    hide LOWER, UPPER, DIGITS, SecretName, SecretKey, Reference, SECRET, KEY, Matches;
    ClassThen("@", Then(SECRET, Then(Class("/"), KEY)), s);
    ThenIs(SECRET, Then(Class("/"), KEY), s[1..]);
    var i: nat :| ThenAt(SECRET, Then(Class("/"), KEY), s[1..], i);
    ClassThen("/", KEY, s[1..][i..]);
    assert s[1..][i..][0] == s[i + 1];
    Apart(s, i + 1);
    assert s[1..][..i] == s[1..i + 1] && s[1..][i..][1..] == s[i + 2..];
    r := SecretRef(s[1..i + 1], s[i + 2..]);
    SecretIsMatched(r.name);
    KeyIsMatched(r.key);
  }

  lemma ReferenceMatches(r: SecretRef)
    requires SecretName(r.name) && SecretKey(r.key)
    ensures Matches(SECRET_REF, Reference(r))
  {
    hide LOWER, UPPER, DIGITS, SecretName, SecretKey, Reference, SECRET, KEY, Matches;
    var s := Reference(r);
    Together(r);
    SecretIsMatched(r.name);
    KeyIsMatched(r.key);
    var i := |r.name|;
    ClassThen("/", KEY, s[1..][i..]);
    assert s[1..][i..][1..] == r.key;
    assert ThenAt(SECRET, Then(Class("/"), KEY), s[1..], i);
    ThenIs(SECRET, Then(Class("/"), KEY), s[1..]);
    ClassThen("@", Then(SECRET, Then(Class("/"), KEY)), s);
  }

  /** A value is taken for a reference exactly when the expression matches it. */
  lemma ReferenceExactlyWhenMatched(s: string)
    ensures SecretOf(s).Some? <==> Matches(SECRET_REF, s)
  {
    hide SecretOf, SecretName, SecretKey, Reference, SECRET_REF, Matches;
    if SecretOf(s).Some? {
      ReferenceMatches(SecretOf(s).value);
    }
    if Matches(SECRET_REF, s) {
      var r := MatchedIsReference(s);
      ReferenceReads(r);
    }
  }
}
