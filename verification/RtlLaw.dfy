/** What the rewriter does to one class: splitting and matching undone or repeated, no rule left that
matches, and which twins are mirror images. RtlClasses.dfy has whole class strings. */
module RtlLaw {
  import opened JsText
  import opened Wrappers
  import opened Rtl

  // ---------- Splitting and joining ----------

  /** Splitting is undone by joining on colons. */
  lemma {:induction false} JoinParts(t: string, depth: int)
    ensures Join(Parts(t, depth)) == t
  {
    if t != "" {
      if t[0] == ':' && depth == 0 {
        JoinParts(t[1..], 0);
        assert Join([""] + Parts(t[1..], 0)) == "" + ":" + t[1..];
      } else {
        var d := DepthAfter(t[0], depth);
        var ps := Parts(t[1..], d);
        JoinParts(t[1..], d);
        JoinPrefixed([t[0]], ps);
      }
    }
  }

  lemma JoinPrefixed(s: string, ps: seq<string>)
    requires ps != []
    ensures Join(Prefixed(s, ps)) == s + Join(ps)
  {
    if |ps| > 1 {
      assert Prefixed(s, ps)[1..] == ps[1..];
      assert s + ps[0] + ":" + Join(ps[1..]) == s + (ps[0] + ":" + Join(ps[1..]));
    }
  }

  /** A text read from some depth that has no colon at depth 0. */
  predicate OnePart(t: string, depth: int) {
    Parts(t, depth) == [t]
  }

  /** The variant boundaries do not move when the utility is replaced by another text without
  a colon at depth 0. */
  lemma {:induction false} ReplaceUtility(t: string, depth: int, utility: string)
    requires OnePart(utility, if |Parts(t, depth)| == 1 then depth else 0)
    ensures var ps := Parts(t, depth); var replaced := ps[..|ps| - 1] + [utility];
      Parts(Join(replaced), depth) == replaced
  {
    hide Parts, Join, OnePart;
    var ps := Parts(t, depth);
    PartsFirst(t, depth);
    if |ps| == 1 {
      OneUtility(utility, depth);
      assert ps[..0] + [utility] == [utility];
    } else if t[0] == ':' && depth == 0 {
      ReplaceUtility(t[1..], 0, utility);
      LastAfter("", Parts(t[1..], 0), utility);
      JoinAfterColon(Parts(t[1..], 0)[..|ps| - 2] + [utility]);
    } else {
      var qs := Parts(t[1..], DepthAfter(t[0], depth));
      ReplaceUtility(t[1..], DepthAfter(t[0], depth), utility);
      LastPrefixed(t[0], qs, utility);
      JoinAfterByte(t[0], depth, qs[..|qs| - 1] + [utility]);
    }
  }

  /** The parts of a text, from the parts of the text after its first byte. */
  lemma PartsFirst(t: string, depth: int)
    ensures Parts(t, depth) ==
      if t == "" then [""]
      else if t[0] == ':' && depth == 0 then [""] + Parts(t[1..], 0)
      else Prefixed([t[0]], Parts(t[1..], DepthAfter(t[0], depth)))
  {
  }

  lemma OneUtility(utility: string, depth: int)
    requires OnePart(utility, depth)
    ensures Parts(Join([utility]), depth) == [utility]
  {
  }

  lemma LastAfter(first: string, qs: seq<string>, utility: string)
    requires qs != []
    ensures var ps := [first] + qs; ps[..|ps| - 1] + [utility] == [first] + (qs[..|ps| - 2] + [utility])
  {
  }

  lemma LastPrefixed(c: char, qs: seq<string>, utility: string)
    requires |qs| > 1
    ensures |Prefixed([c], qs)| == |qs|
    ensures Prefixed([c], qs)[..|qs| - 1] + [utility] == Prefixed([c], qs[..|qs| - 1] + [utility])
  {
  }

  lemma JoinAfterColon(rest: seq<string>)
    requires rest != [] && Parts(Join(rest), 0) == rest
    ensures Parts(Join([""] + rest), 0) == [""] + rest
  {
    var joined := Join(rest);
    assert ([""] + rest)[1..] == rest;
    assert Join([""] + rest) == "" + ":" + joined;
    assert ("" + ":" + joined)[1..] == joined;
  }

  lemma JoinAfterByte(c: char, depth: int, rest: seq<string>)
    requires rest != [] && !(c == ':' && depth == 0) && Parts(Join(rest), DepthAfter(c, depth)) == rest
    ensures Parts(Join(Prefixed([c], rest)), depth) == Prefixed([c], rest)
  {
    hide Join;
    JoinPrefixed([c], rest);
    assert ([c] + Join(rest))[1..] == Join(rest);
  }

  /** The utility of a token has no colon at depth 0. */
  lemma {:induction false} UtilityIsOnePart(t: string, depth: int)
    ensures var ps := Parts(t, depth); OnePart(ps[|ps| - 1], if |ps| == 1 then depth else 0)
  {
    if t != "" {
      if t[0] == ':' && depth == 0 {
        UtilityIsOnePart(t[1..], 0);
      } else {
        UtilityIsOnePart(t[1..], DepthAfter(t[0], depth));
        var qs := Parts(t[1..], DepthAfter(t[0], depth));
        if |qs| == 1 {
          JoinParts(t[1..], DepthAfter(t[0], depth));
          assert [t[0]] + qs[0] == t;
        }
      }
    }
  }

  /** No brackets and no colons. */
  predicate Free(s: string) {
    forall i :: 0 <= i < |s| ==> s[i] != ':' && DepthAfter(s[i], 0) == 0
  }

  lemma FreeStep(c: char, t: string, depth: int)
    requires c != ':' && DepthAfter(c, 0) == 0
    ensures OnePart([c] + t, depth) <==> OnePart(t, depth)
  {
    assert ([c] + t)[1..] == t;
    var ps := Parts(t, depth);
    assert Parts([c] + t, depth) == [[c] + ps[0]] + ps[1..];
    if |ps| == 1 {
      JoinParts(t, depth);
    }
  }

  lemma {:induction false} FreePrefix(s: string, t: string, depth: int)
    requires Free(s)
    ensures OnePart(s + t, depth) <==> OnePart(t, depth)
  {
    if s == "" {
      assert s + t == t;
    } else {
      FreePrefix(s[1..], t, depth);
      FreeStep(s[0], s[1..] + t, depth);
      assert s + t == [s[0]] + (s[1..] + t);
    }
  }

  /** A free byte may go from anywhere. */
  lemma {:induction false} FreeInside(a: string, c: char, b: string, depth: int)
    requires c != ':' && DepthAfter(c, 0) == 0
    ensures OnePart(a + [c] + b, depth) <==> OnePart(a + b, depth)
  {
    if a == "" {
      assert a + [c] + b == [c] + b && a + b == b;
      FreeStep(c, b, depth);
    } else {
      FreeInside(a[1..], c, b, DepthAfter(a[0], depth));
      OnePartStep(a[0], a[1..] + [c] + b, depth);
      OnePartStep(a[0], a[1..] + b, depth);
      assert a + [c] + b == [a[0]] + (a[1..] + [c] + b);
      assert a + b == [a[0]] + (a[1..] + b);
    }
  }

  lemma OnePartStep(c: char, t: string, depth: int)
    ensures OnePart([c] + t, depth) <==> !(c == ':' && depth == 0) && OnePart(t, DepthAfter(c, depth))
  {
    assert ([c] + t)[1..] == t;
    if !(c == ':' && depth == 0) {
      var ps := Parts(t, DepthAfter(c, depth));
      if |ps| == 1 {
        JoinParts(t, DepthAfter(c, depth));
      }
    }
  }

  // ---------- The rules leave nothing for the rules ----------

  predicate LeftOrRight(s: string, i: nat) {
    i < |s| && (s[i] == 'l' || s[i] == 'r')
  }

  predicate At(s: string, i: nat, c: char) {
    i < |s| && s[i] == c
  }

  /** What every utility some rule matches looks like, at a few places. */
  predicate Physical(s: string) {
    || (At(s, 0, 'm') && LeftOrRight(s, 1))
    || (At(s, 0, 'p') && LeftOrRight(s, 1))
    || (At(s, 0, 's') && At(s, 1, 'c') && LeftOrRight(s, 8))
    || At(s, 0, 'l')
    || (At(s, 0, 'r') && At(s, 1, 'i'))
    || (At(s, 0, 't') && At(s, 1, 'e') && LeftOrRight(s, 5))
    || (At(s, 0, 'r') && At(s, 1, 'o') && (LeftOrRight(s, 8) || At(s, 8, 't') || At(s, 8, 'b')))
    || (At(s, 0, 'b') && LeftOrRight(s, 7))
    || (At(s, 0, 's') && At(s, 1, 'l') && At(s, 6, 'i') && LeftOrRight(s, 14))
    || (At(s, 0, 's') && At(s, 1, 'l') && At(s, 6, 'o') && LeftOrRight(s, 13))
    || (At(s, 0, 'f') && LeftOrRight(s, 6))
    || (At(s, 0, 'c') && LeftOrRight(s, 6))
  }

  /** Long enough to tell that no rule matches it, whatever follows. */
  predicate Settled(s: string) {
    || (At(s, 0, 'm') && |s| > 1 && !LeftOrRight(s, 1))
    || (At(s, 0, 'p') && |s| > 1 && !LeftOrRight(s, 1))
    || (At(s, 0, 's') && At(s, 1, 'c') && |s| > 8 && !LeftOrRight(s, 8))
    || At(s, 0, 'i')
    || (At(s, 0, 't') && |s| > 5 && (s[1] != 'e' || !LeftOrRight(s, 5)))
    || (At(s, 0, 'r') && At(s, 1, 'o') && |s| > 8 && !LeftOrRight(s, 8) && s[8] != 't' && s[8] != 'b')
    || (At(s, 0, 'b') && |s| > 7 && !LeftOrRight(s, 7))
    || (At(s, 0, 's') && At(s, 1, 'l') && At(s, 6, 'i') && |s| > 14 && !LeftOrRight(s, 14))
    || (At(s, 0, 's') && At(s, 1, 'l') && At(s, 6, 'o') && |s| > 13 && !LeftOrRight(s, 13))
    || (At(s, 0, 'f') && |s| > 6 && !LeftOrRight(s, 6))
    || (At(s, 0, 'c') && |s| > 6 && !LeftOrRight(s, 6))
  }

  lemma SettledStays(s: string, rest: string)
    requires Settled(s)
    ensures !Physical(s + rest)
  {
  }

  lemma PhysicalStays(s: string, rest: string)
    requires Physical(s)
    ensures Physical(s + rest)
  {
  }

  predicate Letter(c: char) {
    'a' <= c <= 'z'
  }

  /** Letters and hyphens, beginning and ending with a letter. */
  predicate Word(s: string) {
    && s != "" && Letter(s[0]) && Letter(s[|s| - 1])
    && forall i :: 0 <= i < |s| ==> Letter(s[i]) || s[i] == '-'
  }

  /** A word for a word, a settled one for a physical one. */
  predicate Swap(old_: string, new_: string) {
    Word(old_) && Word(new_) && Physical(old_) && Settled(new_)
  }

  predicate RowOk(rule: Rule) {
    Swap(rule.left, rule.start) && Swap(rule.right, rule.end)
  }

  lemma SlideInLeft()
    ensures Swap("slide-in-from-left", "slide-in-from-start")
  {
  }

  lemma SlideInRight()
    ensures Swap("slide-in-from-right", "slide-in-from-end")
  {
  }

  lemma SlideOutLeft()
    ensures Swap("slide-out-to-left", "slide-out-to-start")
  {
  }

  lemma SlideOutRight()
    ensures Swap("slide-out-to-right", "slide-out-to-end")
  {
  }

  lemma Margin()
    ensures RowOk(Rule("ml", "ms", "mr", "me", Value))
  {
  }

  lemma Padding()
    ensures RowOk(Rule("pl", "ps", "pr", "pe", Value))
  {
  }

  lemma ScrollMargin()
    ensures RowOk(Rule("scroll-ml", "scroll-ms", "scroll-mr", "scroll-me", Value))
  {
  }

  lemma ScrollPadding()
    ensures RowOk(Rule("scroll-pl", "scroll-ps", "scroll-pr", "scroll-pe", Value))
  {
  }

  lemma Inset()
    ensures RowOk(Rule("left", "inset-s", "right", "inset-e", Value))
  {
  }

  lemma TextAlign()
    ensures RowOk(Rule("text-left", "text-start", "text-right", "text-end", Nothing))
  {
  }

  lemma RoundedSide()
    ensures RowOk(Rule("rounded-l", "rounded-s", "rounded-r", "rounded-e", Optional))
  {
  }

  lemma RoundedTop()
    ensures RowOk(Rule("rounded-tl", "rounded-ss", "rounded-tr", "rounded-se", Optional))
  {
  }

  lemma RoundedBottom()
    ensures RowOk(Rule("rounded-bl", "rounded-es", "rounded-br", "rounded-ee", Optional))
  {
  }

  lemma BorderSide()
    ensures RowOk(Rule("border-l", "border-s", "border-r", "border-e", Optional))
  {
  }

  lemma SlideIn()
    ensures RowOk(Rule("slide-in-from-left", "slide-in-from-start", "slide-in-from-right", "slide-in-from-end", Optional))
  {
    hide Swap;
    SlideInLeft();
    SlideInRight();
  }

  lemma SlideOut()
    ensures RowOk(Rule("slide-out-to-left", "slide-out-to-start", "slide-out-to-right", "slide-out-to-end", Optional))
  {
    hide Swap;
    SlideOutLeft();
    SlideOutRight();
  }

  lemma FloatSide()
    ensures RowOk(Rule("float-left", "float-start", "float-right", "float-end", Nothing))
  {
  }

  lemma ClearSide()
    ensures RowOk(Rule("clear-left", "clear-start", "clear-right", "clear-end", Nothing))
  {
  }

  lemma RowsOk(i: nat)
    requires i < |RULES|
    ensures RowOk(RULES[i])
  {
    hide Swap;
    Margin();
    Padding();
    ScrollMargin();
    ScrollPadding();
    Inset();
    TextAlign();
    RoundedSide();
    RoundedTop();
    RoundedBottom();
    BorderSide();
    SlideIn();
    SlideOut();
    FloatSide();
    ClearSide();
  }

  /** The two sides of a row. */
  predicate OfRow(rule: Rule, old_: string, new_: string) {
    (old_ == rule.left && new_ == rule.start) || (old_ == rule.right && new_ == rule.end)
  }

  /** A match takes a physical word off the front and puts its row's logical one there. */
  lemma {:induction false} MatchLaw(core: string, i: nat) returns (old_: string, new_: string)
    requires i <= |RULES| && FirstMatch(core, RULES[i..]).Some?
    ensures Swap(old_, new_) && old_ <= core && exists k :: 0 <= k < |RULES| && OfRow(RULES[k], old_, new_)
    ensures FirstMatch(core, RULES[i..]).value == new_ + core[|old_|..]
    decreases |RULES| - i
  {
    hide Swap, RULES, Rule.Apply;
    var rule := RULES[i];
    assert RULES[i..][0] == rule && RULES[i..][1..] == RULES[i + 1..];
    if rule.Apply(core).Some? {
      old_, new_ := RowMatch(core, i);
    } else {
      old_, new_ := MatchLaw(core, i + 1);
    }
  }

  lemma RowMatch(core: string, i: nat) returns (old_: string, new_: string)
    requires i < |RULES| && RULES[i].Apply(core).Some?
    ensures Swap(old_, new_) && old_ <= core && OfRow(RULES[i], old_, new_)
    ensures RULES[i].Apply(core).value == new_ + core[|old_|..]
  {
    hide Swap, RULES;
    var rule := RULES[i];
    RowsOk(i);
    if rule.left <= core && rule.TailOk(core[|rule.left|..]) {
      return rule.left, rule.start;
    }
    return rule.right, rule.end;
  }

  lemma MatchIsPhysical(core: string)
    requires FirstMatch(core, RULES).Some?
    ensures Physical(core)
  {
    hide FirstMatch, Physical, Settled, Word;
    assert RULES[0..] == RULES;
    var old_, new_ := MatchLaw(core, 0);
    PhysicalStays(old_, core[|old_|..]);
    assert core == old_ + core[|old_|..];
  }

  // ---------- One token ----------

  predicate SignOk(s: Signed) {
    && (s.pre == "" || s.pre == "!" || s.pre == "-" || s.pre == "!-")
    && (s.post == "!" || (s.post == "" && (s.core == "" || s.core[|s.core| - 1] != '!')))
  }

  lemma SignLaw(u: string)
    ensures SignOk(SignOf(u))
    ensures u == SignOf(u).pre + SignOf(u).core + SignOf(u).post
  {
    var pre := PreOf(u);
    assert pre == "" || pre == "!" || pre == "-" || pre == "!-";
    hide PreOf;
    var w := u[|pre|..];
    assert u == pre + w;
    if w != "" && w[|w| - 1] == '!' {
      assert w == w[..|w| - 1] + "!";
      assert pre + (w[..|w| - 1] + "!") == pre + w[..|w| - 1] + "!";
    } else {
      assert pre + w == pre + w + "";
    }
  }

  lemma PreStays(pre: string, w: string)
    requires pre == "" || pre == "!" || pre == "-" || pre == "!-"
    requires w != "" && Letter(w[0])
    ensures PreOf(pre + w) == pre
  {
    if pre == "" {
      assert pre + w == w;
    }
  }

  /** Taking the signs off undoes putting them on a core that begins with a letter. */
  lemma SignStays(s: Signed)
    requires SignOk(s) && s.core != "" && Letter(s.core[0])
    ensures SignOf(s.pre + s.core + s.post) == s
  {
    hide PreOf;
    var w := s.core + s.post;
    assert s.pre + s.core + s.post == s.pre + w;
    PreStays(s.pre, w);
    assert (s.pre + w)[|s.pre|..] == w;
    if s.post == "!" {
      assert w[..|w| - 1] == s.core;
    } else {
      assert w == s.core;
    }
  }

  /** A token no rule matches is left as it is. */
  lemma FixedUnlessPhysical(token: string)
    requires !Physical(SignOf(SplitOf(token).utility).core)
    ensures Logical(token) == token
  {
    hide FirstMatch, Physical;
    var core := SignOf(SplitOf(token).utility).core;
    if FirstMatch(core, RULES).Some? {
      MatchIsPhysical(core);
    }
  }

  lemma SplitJoins(token: string)
    ensures var t := SplitOf(token); token == Join(t.variants + [t.utility])
  {
    JoinParts(token, 0);
    var ps := Parts(token, 0);
    assert ps == ps[..|ps| - 1] + [ps[|ps| - 1]];
  }

  lemma SplitReplaced(token: string, utility: string)
    requires OnePart(utility, 0)
    ensures SplitOf(Join(SplitOf(token).variants + [utility])) == Token(SplitOf(token).variants, utility)
  {
    ReplaceUtility(token, 0, utility);
  }

  lemma WordIsFree(s: string)
    requires Word(s)
    ensures Free(s)
  {
  }

  /** The parts of a token that a rule rewrites. */
  ghost predicate Rewrites(token: string, old_: string, new_: string, rest: string) {
    var t := SplitOf(token);
    var s := SignOf(t.utility);
    && !PhysicalContext(t.variants)
    && Swap(old_, new_) && (exists k :: 0 <= k < |RULES| && OfRow(RULES[k], old_, new_))
    && s.core == old_ + rest
    && Logical(token) == Join(t.variants + [s.pre + (new_ + rest) + s.post])
  }

  lemma LogicalLaw(token: string) returns (old_: string, new_: string, rest: string)
    ensures Logical(token) == token || Rewrites(token, old_, new_, rest)
  {
    hide FirstMatch, Swap;
    old_, new_, rest := "", "", "";
    var t := SplitOf(token);
    var s := SignOf(t.utility);
    if !PhysicalContext(t.variants) && FirstMatch(s.core, RULES).Some? {
      assert RULES[0..] == RULES;
      old_, new_ := MatchLaw(s.core, 0);
      rest := s.core[|old_|..];
      assert s.core == old_ + rest;
    }
  }

  /** The rewritten utility has no colon at depth 0, as the one before it had none. */
  lemma RewrittenIsOnePart(pre: string, old_: string, new_: string, rest: string, post: string)
    requires Free(pre) && Free(old_) && Free(new_)
    requires OnePart(pre + (old_ + rest) + post, 0)
    ensures OnePart(pre + (new_ + rest) + post, 0)
  {
    hide OnePart;
    assert pre + (old_ + rest) + post == pre + (old_ + (rest + post));
    assert pre + (new_ + rest) + post == pre + (new_ + (rest + post));
    FreePrefix(pre, old_ + (rest + post), 0);
    FreePrefix(old_, rest + post, 0);
    FreePrefix(new_, rest + post, 0);
    FreePrefix(pre, new_ + (rest + post), 0);
  }

  lemma SwappedSign(s: Signed, old_: string, new_: string, rest: string)
    requires SignOk(s) && Swap(old_, new_) && s.core == old_ + rest
    ensures Free(s.pre) && Free(old_) && Free(new_)
    ensures SignOf(s.pre + (new_ + rest) + s.post) == Signed(s.pre, new_ + rest, s.post)
    ensures !Physical(new_ + rest)
  {
    hide Physical, Settled, SignOf;
    WordIsFree(old_);
    WordIsFree(new_);
    SettledStays(new_, rest);
    SignStays(Signed(s.pre, new_ + rest, s.post));
  }

  /** Making a token logical twice is making it logical once. */
  lemma LogicalIdempotent(token: string)
    ensures Logical(Logical(token)) == Logical(token)
  {
    hide Logical, SignOf, Swap, Physical, PhysicalContext, Join;
    var old_, new_, rest := LogicalLaw(token);
    if Logical(token) != token {
      var t := SplitOf(token);
      var s := SignOf(t.utility);
      SignLaw(t.utility);
      SwappedSign(s, old_, new_, rest);
      UtilityIsOnePart(token, 0);
      RewrittenIsOnePart(s.pre, old_, new_, rest, s.post);
      SplitReplaced(token, s.pre + (new_ + rest) + s.post);
      FixedUnlessPhysical(Logical(token));
    }
  }

  /** After Logical no utility is physical, except under a physical variant. */
  lemma LogicalIsComplete(token: string)
    ensures var t := SplitOf(Logical(token));
      t.variants == SplitOf(token).variants
      && (PhysicalContext(t.variants) || FirstMatch(SignOf(t.utility).core, RULES) == None)
  {
    hide SignOf, Swap, Physical, PhysicalContext, Join, FirstMatch;
    var old_, new_, rest := LogicalLaw(token);
    if Logical(token) != token {
      var t := SplitOf(token);
      var s := SignOf(t.utility);
      SignLaw(t.utility);
      SwappedSign(s, old_, new_, rest);
      UtilityIsOnePart(token, 0);
      RewrittenIsOnePart(s.pre, old_, new_, rest, s.post);
      SplitReplaced(token, s.pre + (new_ + rest) + s.post);
      if FirstMatch(new_ + rest, RULES).Some? {
        MatchIsPhysical(new_ + rest);
      }
    } else {
      LogicalUnchanged(token);
    }
  }

  /** A token stays as it is exactly when no rule matches it or it is under a physical variant. */
  lemma LogicalUnchanged(token: string)
    ensures var t := SplitOf(token);
      Logical(token) == token <==> PhysicalContext(t.variants) || FirstMatch(SignOf(t.utility).core, RULES) == None
  {
    hide SignOf, Swap, PhysicalContext, Join, FirstMatch, SplitOf;
    var t := SplitOf(token);
    var s := SignOf(t.utility);
    if !PhysicalContext(t.variants) && FirstMatch(s.core, RULES).Some? {
      assert RULES[0..] == RULES;
      var old_, new_ := MatchLaw(s.core, 0);
      var rest := s.core[|old_|..];
      assert s.core == old_ + rest;
      SignLaw(t.utility);
      SwappedSign(s, old_, new_, rest);
      MatchIsPhysical(s.core);
      SplitChanged(token, s, new_ + rest);
    }
  }

  /** Another core gives another token. */
  lemma SplitChanged(token: string, s: Signed, core: string)
    requires s == SignOf(SplitOf(token).utility) && core != s.core
    ensures Join(SplitOf(token).variants + [s.pre + core + s.post]) != token
  {
    hide SignOf, SplitOf, Join;
    var t := SplitOf(token);
    SplitJoins(token);
    SignLaw(t.utility);
    if Join(t.variants + [s.pre + core + s.post]) == token {
      JoinCancels(t.variants, t.utility, s.pre + core + s.post);
      CoreCancels(s.pre, core, s.core, s.post);
    }
  }

  lemma CoreCancels(pre: string, a: string, b: string, post: string)
    requires pre + a + post == pre + b + post
    ensures a == b
  {
    assert a == (pre + a + post)[|pre|..|pre| + |a|];
    assert b == (pre + b + post)[|pre|..|pre| + |b|];
  }

  lemma {:induction false} JoinCancels(vs: seq<string>, a: string, b: string)
    requires Join(vs + [a]) == Join(vs + [b])
    ensures a == b
  {
    if vs == [] {
      assert vs + [a] == [a] && vs + [b] == [b];
    } else {
      assert (vs + [a])[1..] == vs[1..] + [a] && (vs + [b])[1..] == vs[1..] + [b];
      var x, y := Join(vs[1..] + [a]), Join(vs[1..] + [b]);
      var p := vs[0] + ":";
      assert (p + x)[|p|..] == x && (p + y)[|p|..] == y;
      JoinCancels(vs[1..], a, b);
    }
  }

  // ---------- Twins ----------

  lemma {:induction false} JoinEnds(vs: seq<string>, utility: string) returns (p: string)
    ensures Join(vs + [utility]) == p + utility
  {
    if vs == [] {
      assert vs + [utility] == [utility];
      return "";
    }
    assert (vs + [utility])[1..] == vs[1..] + [utility];
    var q := JoinEnds(vs[1..], utility);
    p := vs[0] + ":" + q;
    assert vs[0] + ":" + (q + utility) == p + utility;
  }

  lemma RtlFirst(rest: string)
    ensures Parts("rtl:" + rest, 0) == ["rtl"] + Parts(rest, 0)
  {
    assert "rtl:" + rest == "r" + ("t" + ("l" + (":" + rest)));
    assert (":" + rest)[1..] == rest;
    assert Parts(":" + rest, 0) == [""] + Parts(rest, 0);
    PartsOf('l', ":" + rest);
    PartsOf('t', "l" + (":" + rest));
    PartsOf('r', "t" + ("l" + (":" + rest)));
    assert "l" + "" == "l" && "t" + "l" == "tl" && "r" + "tl" == "rtl";
  }

  lemma PartsOf(c: char, t: string)
    requires Free([c])
    ensures Parts([c] + t, 0) == Prefixed([c], Parts(t, 0))
  {
    assert [c][0] == c;
    assert ([c] + t)[1..] == t;
  }

  /** The signs of a twin's utility and what follows them. */
  function TwinSigns(s: Signed, value: string): string {
    var negative := s.pre != "" && s.pre[|s.pre| - 1] == '-';
    (if s.pre != "" && s.pre[0] == '!' then "!" else "") + (if NegativeLiteral(value) == negative then "-" else "")
  }

  function TwinValue(value: string): string {
    if NegativeLiteral(value) then "[" + value[2..] else value
  }

  /** The utility of a token's twin. */
  function TwinUtility(s: Signed): string
    requires TRANSLATE <= s.core
  {
    var value := s.core[|TRANSLATE|..];
    TwinSigns(s, value) + (TRANSLATE + TwinValue(value) + s.post)
  }

  lemma TwinIs(token: string)
    requires MirroredTranslate(token).Some?
    ensures var t := SplitOf(token); var s := SignOf(t.utility);
      && TRANSLATE <= s.core && s.core != TRANSLATE
      && MirroredTranslate(token) == Some(Join(["rtl"] + t.variants + [TwinUtility(s)]))
  {
    hide SplitOf, SignOf, Join, PhysicalContext, TwinUtility, Flipped;
    var s := SignOf(SplitOf(token).utility);
    FlippedIsTwin(s);
  }

  lemma FlippedIsTwin(s: Signed)
    requires TRANSLATE <= s.core
    ensures (if s.pre != "" && s.pre[0] == '!' then "!" else "") + Flipped(s, s.core[|TRANSLATE|..]) + s.post
         == TwinUtility(s)
  {
    hide NegativeLiteral, TwinValue, Flipped;
    var value := s.core[|TRANSLATE|..];
    var bang := if s.pre != "" && s.pre[0] == '!' then "!" else "";
    var minus := if NegativeLiteral(value) == (s.pre != "" && s.pre[|s.pre| - 1] == '-') then "-" else "";
    FlippedShape(s, value, minus);
    RegroupTwin(bang, minus, TRANSLATE, TwinValue(value), s.post);
  }

  lemma FlippedShape(s: Signed, value: string, minus: string)
    requires minus == if NegativeLiteral(value) == (s.pre != "" && s.pre[|s.pre| - 1] == '-') then "-" else ""
    ensures Flipped(s, value) == minus + TRANSLATE + TwinValue(value)
  {
    if NegativeLiteral(value) {
      var rest := value[2..];
      hide NegativeLiteral;
      assert minus + TRANSLATE + ("[" + rest) == minus + TRANSLATE + "[" + rest;
    }
  }

  lemma RegroupTwin(bang: string, minus: string, name: string, value: string, post: string)
    ensures bang + (minus + name + value) + post == (bang + minus) + (name + value + post)
  {
  }

  lemma TwinIsOnePart(s: Signed)
    requires SignOk(s) && TRANSLATE <= s.core
    requires OnePart(s.pre + s.core + s.post, 0)
    ensures OnePart(TwinUtility(s), 0)
  {
    hide OnePart, TwinSigns, NegativeLiteral;
    var value := s.core[|TRANSLATE|..];
    assert s.core == TRANSLATE + value;
    assert s.pre + s.core + s.post == s.pre + (TRANSLATE + value + s.post);
    SignsAreFree(s, value);
    FreePrefix(s.pre, TRANSLATE + value + s.post, 0);
    FreePrefix(TwinSigns(s, value), TRANSLATE + TwinValue(value) + s.post, 0);
    if NegativeLiteral(value) {
      LiteralLosesSign(TRANSLATE, value, s.post);
    }
  }

  lemma SignsAreFree(s: Signed, value: string)
    requires SignOk(s)
    ensures Free(s.pre) && Free(TwinSigns(s, value))
  {
  }

  lemma LiteralLosesSign(before: string, value: string, after: string)
    requires NegativeLiteral(value)
    ensures OnePart(before + value + after, 0) <==> OnePart(before + TwinValue(value) + after, 0)
  {
    hide OnePart;
    var a, b := before + "[", value[2..] + after;
    assert value == "[" + ['-'] + value[2..];
    assert before + value + after == a + ['-'] + b;
    assert before + TwinValue(value) + after == a + b;
    FreeInside(a, '-', b, 0);
  }

  lemma NotPhysical(core: string)
    requires |core| >= 2 && core[0] == 't' && core[1] == 'r'
    ensures !Physical(core)
  {
  }

  /** Taking the signs off a utility keeps the beginning of what follows them. */
  lemma SignKeepsFront(pre: string, w: string)
    requires pre == "" || pre == "!" || pre == "-" || pre == "!-"
    requires |w| >= 3 && Letter(w[0])
    ensures w[..2] <= SignOf(pre + w).core
  {
    hide PreOf, Letter;
    PreStays(pre, w);
    assert (pre + w)[|pre|..] == w;
  }

  lemma TwinCore(s: Signed)
    requires TRANSLATE <= s.core
    ensures !Physical(SignOf(TwinUtility(s)).core)
  {
    hide SignOf, NegativeLiteral, Physical, TwinValue;
    var value := s.core[|TRANSLATE|..];
    var w := TRANSLATE + TwinValue(value) + s.post;
    assert w[..12] == TRANSLATE;
    assert w[..2] == "tr";
    SignKeepsFront(TwinSigns(s, value), w);
    NotPhysical(SignOf(TwinUtility(s)).core);
  }

  lemma TwinCounts(vs: seq<string>, s: Signed)
    requires TRANSLATE <= s.core
    ensures HasRtlTranslate("rtl:" + Join(vs + [TwinUtility(s)]))
  {
    hide Join;
    var p := JoinEnds(vs, TwinUtility(s));
    var rest := p + TwinUtility(s);
    var value := s.core[|TRANSLATE|..];
    var i := |p| + |TwinSigns(s, value)|;
    assert rest[i..] == TRANSLATE + TwinValue(value) + s.post;
    assert "translate-x" <= rest[i..];
    var twin := "rtl:" + rest;
    assert twin[0..] == twin && twin[0..][4..] == rest;
    assert "rtl:" <= twin[0..];
  }

  /** A twin is a fixed point of Logical and counts as an rtl: translate. */
  lemma TwinLaw(token: string)
    requires MirroredTranslate(token).Some?
    ensures Logical(MirroredTranslate(token).value) == MirroredTranslate(token).value
    ensures HasRtlTranslate(MirroredTranslate(token).value)
  {
    hide Logical, Physical, Join, SignOf, MirroredTranslate, TwinUtility, HasRtlTranslate, SplitOf;
    var t := SplitOf(token);
    var s := SignOf(t.utility);
    TwinIs(token);
    TwinSplits(token);
    TwinCore(s);
    FixedUnlessPhysical(MirroredTranslate(token).value);
    JoinRtl(t.variants, TwinUtility(s));
    TwinCounts(t.variants, s);
  }

  lemma JoinRtl(vs: seq<string>, utility: string)
    ensures Join(["rtl"] + vs + [utility]) == "rtl:" + Join(vs + [utility])
  {
    assert (["rtl"] + vs + [utility])[1..] == vs + [utility];
    assert "rtl" + ":" == "rtl:";
  }

  /** Which way a translate goes: a sign before it and a sign in its literal cancel. */
  predicate Negative(s: Signed)
    requires TRANSLATE <= s.core
  {
    (s.pre != "" && s.pre[|s.pre| - 1] == '-') != NegativeLiteral(s.core[|TRANSLATE|..])
  }

  /** How far it goes. */
  function Distance(s: Signed): string
    requires TRANSLATE <= s.core
  {
    TwinValue(s.core[|TRANSLATE|..])
  }

  /** A literal that still begins with a minus after its first one is gone, as [--x]. */
  predicate DoubleMinus(value: string) {
    NegativeLiteral(value) && NegativeLiteral(TwinValue(value))
  }

  lemma {:induction false} NoColonIsOnePart(t: string, depth: int)
    requires forall i :: 0 <= i < |t| ==> t[i] != ':'
    ensures Parts(t, depth) == [t]
  {
    if t != "" {
      NoColonIsOnePart(t[1..], DepthAfter(t[0], depth));
      assert t == [t[0]] + t[1..];
    }
  }

  lemma DoubleMinusLiteral(x: string)
    requires x != "" && forall i :: 0 <= i < |x| ==> x[i] != ']'
    ensures var value := "[--" + x + "]";
      DoubleMinus(value) && value[2..] == "-" + x + "]" && value[|value| - 1] == ']'
  {
    var value := "[--" + x + "]";
    assert value[2..] == "-" + x + "]";
    assert "[" + value[2..] == "[-" + x + "]";
  }

  lemma TranslateSign(value: string)
    requires value != "" && value[|value| - 1] == ']'
    ensures SignOf(TRANSLATE + value) == Signed("", TRANSLATE + value, "")
  {
    var u := TRANSLATE + value;
    assert u[0] == 't' && u[|u| - 1] == ']' && u[0..] == u;
  }

  lemma JoinTwo(a: string, b: string)
    ensures Join([a, b]) == a + ":" + b
  {
    assert [a, b][1..] == [b];
  }

  /** The twin of a token without variants and signs whose value is a literal. */
  lemma LiteralTwin(core: string, value: string)
    requires SplitOf(core) == Token([], core) && SignOf(core) == Signed("", core, "")
    requires core == TRANSLATE + value && NegativeLiteral(value)
    ensures MirroredTranslate(core) == Some("rtl:" + (TRANSLATE + "[" + value[2..]))
  {
    hide SplitOf, SignOf, Join;
    var s, twin := Signed("", core, ""), TRANSLATE + "[" + value[2..];
    assert core[|TRANSLATE|..] == value && core != TRANSLATE && core != TRANSLATE + "0";
    LiteralFlipped(s, value);
    hide Flipped, NegativeLiteral;
    assert "" + twin + "" == twin;
    assert ["rtl"] + [] + [twin] == ["rtl", twin];
    JoinTwo("rtl", twin);
    assert "rtl" + ":" == "rtl:";
  }

  lemma LiteralFlipped(s: Signed, value: string)
    requires s.pre == "" && NegativeLiteral(value)
    ensures Flipped(s, value) == TRANSLATE + "[" + value[2..]
  {
    assert "" + TRANSLATE + "[" + value[2..] == TRANSLATE + "[" + value[2..];
  }

  /** There are such tokens, one for every name of a CSS variable: the twin of translate-x-[--x] is
  rtl:translate-x-[-x]. */
  lemma DoubleMinusLosesOne(x: string)
    requires x != "" && forall i :: 0 <= i < |x| ==> x[i] != ']' && x[i] != ':'
    ensures DoubleMinus("[--" + x + "]")
    ensures MirroredTranslate(TRANSLATE + ("[--" + x + "]")) == Some("rtl:" + (TRANSLATE + "[" + ("-" + x + "]")))
  {
    hide MirroredTranslate, SignOf;
    var value := "[--" + x + "]";
    DoubleMinusLiteral(x);
    NoColonIsOnePart(TRANSLATE + value, 0);
    TranslateSign(value);
    hide NegativeLiteral, Parts;
    LiteralTwin(TRANSLATE + value, value);
  }

  /** The shortest one. */
  lemma DoubleMinusExample()
    ensures MirroredTranslate("translate-x-[--x]") == Some("rtl:translate-x-[-x]")
  {
    hide MirroredTranslate;
    DoubleMinusLosesOne("x");
    assert TRANSLATE + ("[--" + "x" + "]") == "translate-x-[--x]";
    assert "rtl:" + (TRANSLATE + "[" + ("-" + "x" + "]")) == "rtl:translate-x-[-x]";
  }

  lemma TwinSign(s: Signed)
    requires SignOk(s) && TRANSLATE <= s.core && s.core != TRANSLATE
    ensures var value := s.core[|TRANSLATE|..]; var twin := SignOf(TwinUtility(s));
      twin == Signed(TwinSigns(s, value), TRANSLATE + TwinValue(value), s.post)
  {
    hide SignOf, NegativeLiteral;
    var value := s.core[|TRANSLATE|..];
    var core := TRANSLATE + TwinValue(value);
    assert s.core[|s.core| - 1] == value[|value| - 1];
    TwinValueEnds(value);
    assert core[|core| - 1] == TwinValue(value)[|TwinValue(value)| - 1];
    SignStays(Signed(TwinSigns(s, value), core, s.post));
    assert TwinUtility(s) == TwinSigns(s, value) + core + s.post;
  }

  lemma TwinValueEnds(value: string)
    requires value != ""
    ensures TwinValue(value) != "" && TwinValue(value)[|TwinValue(value)| - 1] == value[|value| - 1]
  {
  }

  /** A twin keeps its token's variants, under rtl:, and its !; it goes the other way by the
  same distance, unless the literal begins with two minus signs, as a CSS variable's does: then
  its name loses one and the direction stays. */
  lemma TwinIsMirror(token: string)
    requires MirroredTranslate(token).Some?
    ensures var t := SplitOf(token); var s := SignOf(t.utility);
      var u := SplitOf(MirroredTranslate(token).value); var r := SignOf(u.utility);
      && TRANSLATE <= s.core && TRANSLATE <= r.core
      && u.variants == ["rtl"] + t.variants && r.post == s.post
      && (At(r.pre, 0, '!') <==> At(s.pre, 0, '!'))
      && (Negative(r) == !Negative(s) && Distance(r) == Distance(s) <==> !DoubleMinus(s.core[|TRANSLATE|..]))
  {
    hide SignOf, Join, OnePart, NegativeLiteral, MirroredTranslate, TwinUtility, TwinSigns, TwinValue;
    var t := SplitOf(token);
    var s := SignOf(t.utility);
    TwinIs(token);
    SignLaw(t.utility);
    TwinSplits(token);
    TwinSign(s);
    var value := s.core[|TRANSLATE|..];
    assert (TRANSLATE + TwinValue(value))[|TRANSLATE|..] == TwinValue(value);
    TwinDirection(s, value);
  }

  lemma TwinDirection(s: Signed, value: string)
    requires SignOk(s)
    ensures var pre := TwinSigns(s, value);
      && (At(pre, 0, '!') <==> At(s.pre, 0, '!'))
      && ((pre != "" && pre[|pre| - 1] == '-') == (NegativeLiteral(value) == (s.pre != "" && s.pre[|s.pre| - 1] == '-')))
    ensures NegativeLiteral(TwinValue(value)) && !NegativeLiteral(value) ==> false
    ensures !NegativeLiteral(TwinValue(value)) ==> TwinValue(TwinValue(value)) == TwinValue(value)
  {
  }

  lemma TwinSplits(token: string)
    requires MirroredTranslate(token).Some?
    ensures TRANSLATE <= SignOf(SplitOf(token).utility).core
    ensures SplitOf(MirroredTranslate(token).value)
      == Token(["rtl"] + SplitOf(token).variants, TwinUtility(SignOf(SplitOf(token).utility)))
  {
    hide Join, SignOf, MirroredTranslate, TwinUtility, OnePart;
    var t := SplitOf(token);
    var s := SignOf(t.utility);
    TwinIs(token);
    var rest := Join(t.variants + [TwinUtility(s)]);
    JoinRtl(t.variants, TwinUtility(s));
    SignLaw(t.utility);
    UtilityIsOnePart(token, 0);
    TwinIsOnePart(s);
    SplitReplaced(token, TwinUtility(s));
    RtlFirst(rest);
    var ps := Parts("rtl:" + rest, 0);
    var qs := Parts(rest, 0);
    assert ps[..|ps| - 1] == ["rtl"] + qs[..|qs| - 1] && ps[|ps| - 1] == qs[|qs| - 1];
  }

  // ---------- Spaces ----------

  predicate AllNoSpace(ps: seq<string>) {
    forall i :: 0 <= i < |ps| ==> NoSpace(ps[i])
  }

  lemma {:induction false} NoSpaceJoin(ps: seq<string>)
    requires ps != []
    ensures NoSpace(Join(ps)) <==> AllNoSpace(ps)
  {
    if |ps| > 1 {
      var rest := Join(ps[1..]);
      NoSpaceJoin(ps[1..]);
      NoSpaceAppend(ps[0] + ":", rest);
      NoSpaceAppend(ps[0], ":");
      assert AllNoSpace(ps) <==> NoSpace(ps[0]) && AllNoSpace(ps[1..]) by {
        assert ps == [ps[0]] + ps[1..];
      }
    }
  }

  lemma NoSpaceAppend(a: string, b: string)
    ensures NoSpace(a + b) <==> NoSpace(a) && NoSpace(b)
  {
    if NoSpace(a + b) {
      forall i | 0 <= i < |a| ensures !IsSpace(a[i]) {
        assert (a + b)[i] == a[i];
      }
      forall i | 0 <= i < |b| ensures !IsSpace(b[i]) {
        assert (a + b)[|a| + i] == b[i];
      }
    }
  }

  lemma LogicalKeepsNoSpace(token: string)
    requires NoSpace(token) && token != ""
    ensures NoSpace(Logical(token)) && Logical(token) != ""
  {
    hide Logical, SignOf, Swap, PhysicalContext, Join, NoSpace, SplitOf;
    var old_, new_, rest := LogicalLaw(token);
    if Logical(token) != token {
      var t := SplitOf(token);
      var s := SignOf(t.utility);
      SignLaw(t.utility);
      SplitJoins(token);
      NoSpaceJoin(t.variants + [t.utility]);
      NoSpaceParts(t.variants, t.utility);
      WordNoSpace(old_, new_);
      NoSpaceAppend(s.pre + s.core, s.post);
      NoSpaceAppend(s.pre, s.core);
      NoSpaceAppend(old_, rest);
      NoSpaceAppend(new_, rest);
      NoSpaceAppend(s.pre, new_ + rest);
      NoSpaceAppend(s.pre + (new_ + rest), s.post);
      NoSpaceParts(t.variants, s.pre + (new_ + rest) + s.post);
      NoSpaceJoin(t.variants + [s.pre + (new_ + rest) + s.post]);
      var p := JoinEnds(t.variants, s.pre + (new_ + rest) + s.post);
    }
  }

  lemma WordNoSpace(old_: string, new_: string)
    requires Swap(old_, new_)
    ensures NoSpace(new_) && new_ != ""
  {
  }

  lemma NoSpaceParts(vs: seq<string>, utility: string)
    ensures AllNoSpace(vs + [utility]) <==> AllNoSpace(vs) && NoSpace(utility)
  {
    hide NoSpace;
    var ps := vs + [utility];
    if AllNoSpace(ps) {
      forall i | 0 <= i < |vs| ensures NoSpace(vs[i]) {
        assert ps[i] == vs[i];
      }
      assert ps[|vs|] == utility;
    }
  }

  lemma TwinKeepsNoSpace(token: string)
    requires NoSpace(token) && MirroredTranslate(token).Some?
    ensures NoSpace(MirroredTranslate(token).value) && MirroredTranslate(token).value != ""
  {
    hide SplitOf, SignOf, MirroredTranslate, Join, TwinUtility, NoSpace, AllNoSpace;
    var t := SplitOf(token);
    var s := SignOf(t.utility);
    TwinIs(token);
    SplitJoins(token);
    NoSpaceJoin(t.variants + [t.utility]);
    NoSpaceParts(t.variants, t.utility);
    SignLaw(t.utility);
    TwinUtilityNoSpace(s);
    NoSpaceParts(t.variants, TwinUtility(s));
    NoSpaceJoin(t.variants + [TwinUtility(s)]);
    JoinRtl(t.variants, TwinUtility(s));
    RtlNoSpace();
    NoSpaceAppend("rtl:", Join(t.variants + [TwinUtility(s)]));
  }

  lemma RtlNoSpace()
    ensures NoSpace("rtl:")
  {
  }

  lemma TwinUtilityNoSpace(s: Signed)
    requires TRANSLATE <= s.core && NoSpace(s.pre + s.core + s.post)
    ensures NoSpace(TwinUtility(s))
  {
    var value := s.core[|TRANSLATE|..];
    NoSpaceAppend(s.pre + s.core, s.post);
    NoSpaceAppend(s.pre, s.core);
    assert s.core == TRANSLATE + value;
    NoSpaceAppend(TRANSLATE, value);
    NoSpaceAppend(TRANSLATE + TwinValue(value), s.post);
    NoSpaceAppend(TRANSLATE, TwinValue(value));
    NoSpaceAppend(TwinSigns(s, value), TRANSLATE + TwinValue(value) + s.post);
  }
}
