/** Strings as JavaScript has them: white space, that is \s of a regular expression and what trim
takes off, and includes. */
module JsText {
  predicate IsSpace(c: char) {
    var n := c as int;
    || 9 <= n <= 13 || n == 0x20 || n == 0xA0 || n == 0x1680 || 0x2000 <= n <= 0x200A
    || n == 0x2028 || n == 0x2029 || n == 0x202F || n == 0x205F || n == 0x3000 || n == 0xFEFF
  }

  function TrimStart(s: string): string {
    if s != "" && IsSpace(s[0]) then TrimStart(s[1..]) else s
  }

  function TrimEnd(s: string): string {
    if s != "" && IsSpace(s[|s| - 1]) then TrimEnd(s[..|s| - 1]) else s
  }

  function Trim(s: string): string {
    TrimEnd(TrimStart(s))
  }

  /** Neither the first nor the last character is white space. */
  predicate Trimmed(s: string) {
    s == "" || (!IsSpace(s[0]) && !IsSpace(s[|s| - 1]))
  }

  lemma {:induction false} TrimStartLaw(s: string)
    ensures var r := TrimStart(s); |r| <= |s| && r == s[|s| - |r|..] && (r == "" || !IsSpace(r[0]))
  {
    if s != "" && IsSpace(s[0]) {
      TrimStartLaw(s[1..]);
      var r := TrimStart(s[1..]);
      assert s[1..][|s| - 1 - |r|..] == s[|s| - |r|..];
    }
  }

  lemma {:induction false} TrimEndLaw(s: string)
    ensures var r := TrimEnd(s); |r| <= |s| && r == s[..|r|] && (r == "" || !IsSpace(r[|r| - 1]))
  {
    if s != "" && IsSpace(s[|s| - 1]) {
      TrimEndLaw(s[..|s| - 1]);
      var r := TrimEnd(s[..|s| - 1]);
      assert s[..|s| - 1][..|r|] == s[..|r|];
    }
  }

  /** What trim leaves is trimmed and comes from the text; a trimmed text is left as it is. */
  lemma TrimLaw(s: string)
    ensures Trimmed(Trim(s)) && forall c :: c in Trim(s) ==> c in s
    ensures Trimmed(s) ==> Trim(s) == s
  {
    hide TrimStart, TrimEnd;
    TrimStartLaw(s);
    var t := TrimStart(s);
    TrimEndLaw(t);
    forall c | c in Trim(s) ensures c in s {
      assert c in t;
    }
    if Trimmed(s) && s != "" {
      TrimmedStays(s);
    }
  }

  lemma TrimmedStays(s: string)
    requires Trimmed(s)
    ensures TrimStart(s) == s && TrimEnd(s) == s
  {
  }

  predicate Includes(s: string, part: string) {
    exists i :: 0 <= i <= |s| && part <= s[i..]
  }

  predicate OnlySpace(s: string) {
    forall i :: 0 <= i < |s| ==> IsSpace(s[i])
  }

  /** Trim takes off white space at both ends, and all of it. */
  lemma TrimTakesSpace(s: string) returns (a: string, b: string)
    ensures s == a + Trim(s) + b && OnlySpace(a) && OnlySpace(b) && Trimmed(Trim(s))
  {
    hide TrimStart, TrimEnd;
    TrimLaw(s);
    a := TrimStartTakes(s);
    b := TrimEndTakes(TrimStart(s));
    assert s == a + (Trim(s) + b);
  }

  lemma {:induction false} TrimStartTakes(s: string) returns (a: string)
    ensures s == a + TrimStart(s) && OnlySpace(a)
  {
    if s != "" && IsSpace(s[0]) {
      var rest := TrimStartTakes(s[1..]);
      a := [s[0]] + rest;
      assert s == [s[0]] + s[1..];
    } else {
      a := "";
    }
  }

  lemma {:induction false} TrimEndTakes(s: string) returns (b: string)
    ensures s == TrimEnd(s) + b && OnlySpace(b)
  {
    if s != "" && IsSpace(s[|s| - 1]) {
      var rest := TrimEndTakes(s[..|s| - 1]);
      b := rest + [s[|s| - 1]];
      assert s == s[..|s| - 1] + [s[|s| - 1]];
    } else {
      b := "";
    }
  }

  lemma IncludesParts(s: string, part: string)
    requires Includes(s, part)
    ensures exists a, b :: s == a + part + b
  {
    var i :| 0 <= i <= |s| && part <= s[i..];
    assert s == s[..i] + part + s[i + |part|..];
  }

  lemma PartsInclude(a: string, part: string, b: string)
    ensures Includes(a + part + b, part)
  {
    assert (a + part + b)[|a|..] == part + b;
  }

  lemma IncludesMeans(s: string, part: string)
    ensures Includes(s, part) <==> exists a, b :: s == a + part + b
  {
    hide Includes;
    if Includes(s, part) {
      IncludesParts(s, part);
    }
    if a, b :| s == a + part + b {
      PartsInclude(a, part, b);
    }
  }
}
