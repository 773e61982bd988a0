/** The grammar of JSON texts as RFC 8259 has it, and that the reader takes exactly these texts for
exactly these values. */
module JsonGrammar {
  import opened Wrappers
  import opened Decimal
  import opened Json
  import opened JsonRoundTrip
  import Utf8

  // ---------- The grammar ----------

  /** Section 2. */
  predicate White(t: string) {
    forall i :: 0 <= i < |t| ==> t[i] in {' ', '\t', '\n', '\r'}
  }

  predicate Digits(t: string) {
    t != "" && AllDigits(t)
  }

  predicate IntegerText(t: string) {
    t == "0" || (Digits(t) && t[0] != '0')
  }

  predicate FractionText(t: string) {
    t == "" || (t[0] == '.' && Digits(t[1..]))
  }

  predicate ExponentText(t: string) {
    t == "" || (t[0] in {'e', 'E'} && (Digits(t[1..]) || (|t| >= 2 && t[1] in {'+', '-'} && Digits(t[2..]))))
  }

  predicate SignedText(t: string) {
    IntegerText(t) || (t != "" && t[0] == '-' && IntegerText(t[1..]))
  }

  /** Section 6: an integer, maybe with a minus, then a fraction and an exponent. */
  ghost predicate NumberText(t: string) {
    exists i, f, e :: SignedText(i) && FractionText(f) && ExponentText(e) && t == i + f + e
  }

  const UPPER_HEX_DIGITS := "0123456789ABCDEF"

  predicate HexDigit(c: char, d: nat) {
    d < 16 && (c == HEX_DIGITS[d] || c == UPPER_HEX_DIGITS[d])
  }

  ghost predicate FourDigits(p: char, q: char, r: char, s: char, u: nat) {
    exists a: nat, b: nat, c: nat, d: nat ::
      HexDigit(p, a) && HexDigit(q, b) && HexDigit(r, c) && HexDigit(s, d) && u == 0x1000 * a + 0x100 * b + 0x10 * c + d
  }

  /** \uXXXX for the code unit u, at the front of t. */
  ghost predicate Unit(t: string, u: nat) {
    |t| >= 6 && t[0] == '\\' && t[1] == 'u' && FourDigits(t[2], t[3], t[4], t[5], u)
  }

  predicate High(u: nat) {
    0xD800 <= u < 0xDC00
  }

  predicate Low(u: nat) {
    0xDC00 <= u < 0xE000
  }

  /** Section 7: the first n bytes of t are an escape that stands for e. A surrogate that is not one of
  a pair stands for U+FFFD. */
  ghost predicate EscapeText(t: string, n: nat, e: string) {
    || (n == 2 && |t| >= 2 && t[0] == '\\' && ShortEscape(t[1], e))
    || (n == 6 && exists u: nat :: Unit(t, u) && !High(u) && !Low(u) && u < 0x10000 && e == Utf8.EncodeRune(u))
    || (n == 12 && exists u: nat, l: nat :: Pair(t, u, l) && e == Utf8.EncodeRune(0x10000 + (u - 0xD800) * 0x400 + (l - 0xDC00)))
    || (n == 6 && e == Utf8.EncodeRune(0xFFFD)
        && (exists u: nat :: Unit(t, u) && (High(u) || Low(u))) && forall u: nat, l: nat :: !Pair(t, u, l))
  }

  ghost predicate Pair(t: string, u: nat, l: nat) {
    |t| >= 12 && Unit(t, u) && High(u) && Unit(t[6..], l) && Low(l)
  }

  predicate ShortEscape(c: char, e: string) {
    || (c in {'\"', '\\', '/'} && e == [c])
    || (c == 'b' && e == [8 as char]) || (c == 'f' && e == [12 as char])
    || (c == 'n' && e == [10 as char]) || (c == 'r' && e == [13 as char]) || (c == 't' && e == [9 as char])
  }

  /** The bytes between the quotes of a literal that stands for s. */
  ghost predicate Spells(t: string, s: string)
    decreases |t|
  {
    if t == "" then s == ""
    else if t[0] == '\\' then
      exists n: nat, e: string :: 0 < n <= |t| && EscapeText(t, n, e) && e <= s && Spells(t[n..], s[|e|..])
    else t[0] as int >= 0x20 && t[0] != '\"' && s != "" && s[0] == t[0] && Spells(t[1..], s[1..])
  }

  ghost predicate StringText(t: string, s: string) {
    |t| >= 2 && t[0] == '\"' && t[|t| - 1] == '\"' && Spells(t[1..|t| - 1], s)
  }

  /** Section 3, and 4 and 5 for objects and arrays. */
  ghost predicate ValueText(t: string, j: Json)
    decreases j, 0
  {
    match j
    case Null => t == "null"
    case Bool(b) => t == if b then "true" else "false"
    case Num(raw) => t == raw && NumberText(raw)
    case Str(s) => StringText(t, s)
    case Arr(items) => |t| >= 2 && t[0] == '[' && t[|t| - 1] == ']' && ItemsText(t[1..|t| - 1], items)
    case Obj(members) => |t| >= 2 && t[0] == '{' && t[|t| - 1] == '}' && MembersText(t[1..|t| - 1], members)
  }

  /** A value with white space around it. */
  ghost predicate Text(t: string, j: Json)
    decreases j, 1
  {
    exists a, b :: 0 <= a <= b <= |t| && White(t[..a]) && White(t[b..]) && ValueText(t[a..b], j)
  }

  ghost predicate ItemsText(t: string, items: seq<Json>)
    decreases items
  {
    if items == [] then White(t)
    else if |items| == 1 then Text(t, items[0])
    else exists k :: 0 <= k < |t| && t[k] == ',' && Text(t[..k], items[0]) && ItemsText(t[k + 1..], items[1..])
  }

  ghost predicate NameText(t: string, s: string) {
    exists a, b :: 0 <= a <= b <= |t| && White(t[..a]) && White(t[b..]) && StringText(t[a..b], s)
  }

  ghost predicate MemberText(t: string, m: Member)
    decreases m, 2
  {
    exists k :: 0 <= k < |t| && t[k] == ':' && NameText(t[..k], m.name) && Text(t[k + 1..], m.value)
  }

  ghost predicate MembersText(t: string, members: seq<Member>)
    decreases members
  {
    if members == [] then White(t)
    else if |members| == 1 then MemberText(t, members[0])
    else exists k :: 0 <= k < |t| && t[k] == ',' && MemberText(t[..k], members[0]) && MembersText(t[k + 1..], members[1..])
  }

  // ---------- White space ----------

  /** What t has before its end r. */
  function Before(t: string, r: string): string
    requires |r| <= |t|
  {
    t[..|t| - |r|]
  }

  lemma Pushed(t: string, n: nat, r: string)
    requires n <= |t| && n + |r| <= |t| && t[n..] == Before(t[n..], r) + r
    ensures t == Before(t, r) + r
    ensures Before(t, r) == t[..n] + Before(t[n..], r) && Before(t, r)[n..] == Before(t[n..], r)
  {
    assert t == t[..n] + t[n..] == t[..n] + Before(t[n..], r) + r;
  }

  lemma {:induction false} SpaceIsWhite(t: string)
    ensures White(Before(t, SkipSpace(t))) && t == Before(t, SkipSpace(t)) + SkipSpace(t)
    ensures SkipSpace(t) == "" || !IsSpace(SkipSpace(t)[0])
  {
    if t != "" && IsSpace(t[0]) {
      SpaceIsWhite(t[1..]);
      Pushed(t, 1, SkipSpace(t));
    } else {
      assert Before(t, t) == "";
    }
  }

  lemma {:induction false} WhiteIsSkipped(w: string, t: string)
    requires White(w)
    ensures SkipSpace(w + t) == SkipSpace(t)
  {
    if w == "" {
      assert w + t == t;
    } else {
      assert (w + t)[1..] == w[1..] + t;
      WhiteIsSkipped(w[1..], t);
    }
  }

  // ---------- Numbers ----------

  lemma {:induction false} SkippedDigits(t: string)
    ensures AllDigits(Before(t, SkipDigits(t))) && t == Before(t, SkipDigits(t)) + SkipDigits(t)
    ensures SkipDigits(t) == "" || !IsDigit(SkipDigits(t)[0])
  {
    if t != "" && IsDigit(t[0]) {
      SkippedDigits(t[1..]);
      Pushed(t, 1, SkipDigits(t));
    } else {
      assert Before(t, t) == "";
    }
  }

  lemma IntegerIsText(t: string)
    requires SkipInteger(t).Some?
    ensures var r := SkipInteger(t).value; SignedText(Before(t, r)) && t == Before(t, r) + r
  {
    var u := if t[0] == '-' then t[1..] else t;
    SkippedDigits(u);
    var r := SkipInteger(t).value;
    assert Before(u, r) != "" && Before(u, r)[0] == u[0] && u == Before(u, r) + r;
    if t[0] == '-' {
      Pushed(t, 1, r);
    }
  }

  lemma FractionIsText(t: string)
    ensures var r := SkipFraction(t); FractionText(Before(t, r)) && t == Before(t, r) + r
  {
    var r := SkipFraction(t);
    if r == t {
      assert Before(t, r) == "";
    } else {
      SkippedDigits(t[1..]);
      Pushed(t, 1, r);
    }
  }

  lemma ExponentIsText(t: string)
    ensures var r := SkipExponent(t); ExponentText(Before(t, r)) && t == Before(t, r) + r
  {
    var r := SkipExponent(t);
    if r == t {
      assert Before(t, r) == "";
    } else {
      var k := if t[1] == '+' || t[1] == '-' then 2 else 1;
      SkippedDigits(t[k..]);
      Pushed(t, k, r);
      assert Digits(Before(t, r)[k..]);
    }
  }

  lemma NumberIsText(t: string)
    requires SkipNumber(t).Some?
    ensures var r := SkipNumber(t).value; NumberText(Before(t, r)) && t == Before(t, r) + r
  {
    hide SkipInteger, SkipFraction, SkipExponent, SignedText, FractionText, ExponentText;
    var u := SkipInteger(t).value;
    var v := SkipFraction(u);
    IntegerIsText(t);
    FractionIsText(u);
    ExponentIsText(v);
    FourParts(t, u, v, SkipExponent(v));
  }

  lemma FourParts(t: string, u: string, v: string, r: string)
    requires |r| <= |v| <= |u| <= |t| && t == Before(t, u) + u && u == Before(u, v) + v && v == Before(v, r) + r
    ensures Before(t, r) == Before(t, u) + Before(u, v) + Before(v, r) && t == Before(t, r) + r
  {
    assert t == Before(t, u) + Before(u, v) + Before(v, r) + r;
  }

  lemma DigitsAreSkipped(d: string, r: string)
    requires AllDigits(d) && (r == "" || !IsDigit(r[0]))
    ensures SkipDigits(d + r) == r
  {
    SkipDigitsAppend(d, r);
    SkipAllDigits(d);
    assert "" + r == r;
  }

  lemma IntegerIsSkipped(d: string, r: string)
    requires SignedText(d) && (r == "" || !IsDigit(r[0]))
    ensures SkipInteger(d + r) == Some(r)
  {
    if IntegerText(d) {
      UnsignedIsSkipped(d, r);
    } else {
      UnsignedIsSkipped(d[1..], r);
      assert (d + r)[1..] == d[1..] + r;
    }
  }

  lemma UnsignedIsSkipped(d: string, r: string)
    requires IntegerText(d) && (r == "" || !IsDigit(r[0]))
    ensures SkipInteger(d + r) == Some(r) && IsDigit((d + r)[0])
  {
    DigitsAreSkipped(d, r);
    assert d == "0" ==> (d + r)[1..] == r;
  }

  lemma FractionIsSkipped(f: string, r: string)
    requires FractionText(f) && (r == "" || (!IsDigit(r[0]) && r[0] != '.'))
    ensures SkipFraction(f + r) == r
  {
    if f == "" {
      assert f + r == r;
    } else {
      assert (f + r)[1..] == f[1..] + r;
      DigitsAreSkipped(f[1..], r);
    }
  }

  lemma ExponentIsSkipped(e: string)
    requires ExponentText(e)
    ensures SkipExponent(e) == ""
  {
    if e != "" {
      if Digits(e[1..]) {
        SkipAllDigits(e[1..]);
        assert IsDigit(e[1..][0]);
      } else {
        SkipAllDigits(e[2..]);
      }
    }
  }

  lemma TextIsNumber(t: string)
    requires NumberText(t)
    ensures IsNumber(t)
  {
    hide SkipInteger, SkipFraction, SkipExponent;
    var i, f, e :| SignedText(i) && FractionText(f) && ExponentText(e) && t == i + f + e;
    assert t == i + (f + e);
    IntegerIsSkipped(i, f + e);
    FractionIsSkipped(f, e);
    ExponentIsSkipped(e);
  }

  // ---------- String literals ----------

  lemma HexValueIs(c: char, d: nat)
    ensures HexValue(c) == Some(d) <==> HexDigit(c, d)
  {
  }

  lemma UnitIs(t: string, u: nat)
    ensures Unit(t, u) <==> |t| >= 6 && t[0] == '\\' && t[1] == 'u' && Hex4(t[2..]) == Some(u)
  {
    hide FourDigits, HexValue;
    if |t| >= 6 {
      var w := t[2..];
      assert w[0] == t[2] && w[1] == t[3] && w[2] == t[4] && w[3] == t[5];
      FourDigitsAre(t[2], t[3], t[4], t[5], u);
    }
  }

  lemma FourDigitsAre(p: char, q: char, r: char, s: char, u: nat)
    ensures FourDigits(p, q, r, s, u) <==>
      && HexValue(p).Some? && HexValue(q).Some? && HexValue(r).Some? && HexValue(s).Some?
      && u == 0x1000 * HexValue(p).value + 0x100 * HexValue(q).value + 0x10 * HexValue(r).value + HexValue(s).value
  {
    hide HexDigit, HexValue;
    if HexValue(p).Some? && HexValue(q).Some? && HexValue(r).Some? && HexValue(s).Some? {
      HexValueIs(p, HexValue(p).value);
      HexValueIs(q, HexValue(q).value);
      HexValueIs(r, HexValue(r).value);
      HexValueIs(s, HexValue(s).value);
    }
    if FourDigits(p, q, r, s, u) {
      var a: nat, b: nat, c: nat, d: nat :| HexDigit(p, a) && HexDigit(q, b) && HexDigit(r, c) && HexDigit(s, d)
                                           && u == 0x1000 * a + 0x100 * b + 0x10 * c + d;
      HexValueIs(p, a);
      HexValueIs(q, b);
      HexValueIs(r, c);
      HexValueIs(s, d);
    }
  }

  lemma PairIs(t: string, u: nat, l: nat)
    ensures Pair(t, u, l) <==> Unit(t, u) && High(u) && LowSurrogate(t[6..]) == Some(l)
  {
    hide Unit, Hex4;
    UnitIs(t, u);
    if |t| >= 6 {
      UnitIs(t[6..], l);
    }
  }

  lemma UnitIsOne(t: string, u: nat)
    requires Unit(t, u)
    ensures |t| >= 6 && t[0] == '\\' && t[1] == 'u'
    ensures u < 0x10000 && forall y: nat :: Unit(t, y) ==> y == u
  {
    hide Unit, Hex4;
    UnitIs(t, u);
    forall y: nat | Unit(t, y) ensures y == u {
      UnitIs(t, y);
    }
  }

  /** What the reader makes of an escaped code unit. */
  lemma UnitEscape(t: string, u: nat)
    requires Unit(t, u)
    ensures u < 0x10000
    ensures var low := LowSurrogate(t[6..]);
      Escape(t[1..]) ==
        if High(u) && low.Some? then Some((Utf8.EncodeRune(0x10000 + (u - 0xD800) * 0x400 + (low.value - 0xDC00)), t[12..]))
        else if High(u) || Low(u) then Some((Utf8.EncodeRune(0xFFFD), t[6..]))
        else Some((Utf8.EncodeRune(u), t[6..]))
  {
    hide Unit, Hex4, Utf8.EncodeRune;
    UnitIs(t, u);
    UnitIsOne(t, u);
    assert t[1..][1..] == t[2..] && t[1..][5..] == t[6..];
    if |t| >= 12 {
      assert t[1..][11..] == t[12..];
    }
  }

  lemma PairsAre(t: string, u: nat)
    requires Unit(t, u)
    ensures |t| >= 6
    ensures forall y: nat, l: nat :: Pair(t, y, l) <==> y == u && High(u) && LowSurrogate(t[6..]) == Some(l)
  {
    hide Unit, LowSurrogate, Pair;
    UnitIsOne(t, u);
    forall y: nat, l: nat ensures Pair(t, y, l) <==> y == u && High(u) && LowSurrogate(t[6..]) == Some(l) {
      PairIs(t, y, l);
    }
  }

  lemma UnitText(t: string, u: nat, n: nat, e: string)
    requires Unit(t, u)
    ensures EscapeText(t, n, e) <==> n <= |t| && Escape(t[1..]) == Some((e, t[n..]))
  {
    hide Unit, LowSurrogate, Pair, Escape, Utf8.EncodeRune;
    UnitIsOne(t, u);
    UnitEscape(t, u);
    PairsAre(t, u);
    assert !ShortEscape('u', e);
    assert forall k: nat :: k <= |t| ==> |t[k..]| == |t| - k;
    var low := LowSurrogate(t[6..]);
    if High(u) && low.Some? {
      assert Pair(t, u, low.value);
      assert EscapeText(t, n, e) <==> n == 12 && Escape(t[1..]) == Some((e, t[12..]));
    } else if High(u) || Low(u) {
      assert forall y: nat, l: nat :: !Pair(t, y, l);
      assert EscapeText(t, n, e) <==> n == 6 && Escape(t[1..]) == Some((e, t[6..]));
    } else {
      assert EscapeText(t, n, e) <==> n == 6 && Escape(t[1..]) == Some((e, t[6..]));
    }
  }

  lemma ShortText(t: string, n: nat, e: string)
    requires t != "" && t[0] == '\\' && (|t| == 1 || t[1] != 'u')
    ensures EscapeText(t, n, e) <==> n <= |t| && Escape(t[1..]) == Some((e, t[n..]))
  {
    if |t| >= 2 {
      assert t[1..][1..] == t[2..];
      assert n <= |t| && t[n..] == t[2..] ==> |t[n..]| == |t[2..]|;
    }
    hide Utf8.EncodeRune;
  }

  lemma NoUnit(t: string, n: nat, e: string)
    requires |t| >= 2 && t[0] == '\\' && t[1] == 'u' && forall u: nat :: !Unit(t, u)
    ensures Escape(t[1..]) == None && !EscapeText(t, n, e)
  {
    hide Unit, Hex4, Utf8.EncodeRune;
    assert t[1..][1..] == t[2..];
    if Hex4(t[2..]).Some? {
      UnitIs(t, Hex4(t[2..]).value);
    }
  }

  /** The reader takes an escape exactly for what it stands for. */
  lemma EscapeIsText(t: string, n: nat, e: string)
    requires t != "" && t[0] == '\\'
    ensures EscapeText(t, n, e) <==> n <= |t| && Escape(t[1..]) == Some((e, t[n..]))
  {
    hide Unit, Escape, ShortEscape, Hex4, Pair, Utf8.EncodeRune;
    if |t| == 1 || t[1] != 'u' {
      ShortText(t, n, e);
    } else if exists u: nat :: Unit(t, u) {
      var u: nat :| Unit(t, u);
      UnitText(t, u, n, e);
    } else {
      NoUnit(t, n, e);
    }
  }

  /** A text up to its closing quote, and what follows that. */
  function Quoted(b: string, rest: string): string {
    b + "\"" + rest
  }

  lemma UnitInside(b: string, rest: string, u: nat)
    requires |b| >= 6
    ensures Unit(Quoted(b, rest), u) <==> Unit(b, u)
  {
    hide FourDigits;
  }

  lemma QuoteInUnit(t: string, k: nat, u: nat)
    requires k < 6 && k < |t| && t[k] == '\"'
    ensures !Unit(t, u)
  {
  }

  lemma PairInside(b: string, rest: string, u: nat, l: nat)
    requires |b| >= 6
    ensures Pair(Quoted(b, rest), u, l) <==> Pair(b, u, l)
  {
    var t := Quoted(b, rest);
    UnitInside(b, rest, u);
    hide Unit;
    if |b| >= 12 {
      assert t[6..] == Quoted(b[6..], rest);
      UnitInside(b[6..], rest, l);
    } else if |t| >= 12 {
      QuoteInUnit(t[6..], |b| - 6, l);
    }
  }

  /** Whether an escape is one does not depend on what follows the literal. */
  lemma EscapeInside(b: string, rest: string, n: nat, e: string)
    requires 0 < n <= |b|
    ensures EscapeText(Quoted(b, rest), n, e) <==> EscapeText(b, n, e)
  {
    hide Unit, Pair, ShortEscape, Utf8.EncodeRune;
    if |b| >= 6 {
      forall u: nat ensures Unit(Quoted(b, rest), u) <==> Unit(b, u) {
        UnitInside(b, rest, u);
      }
      forall u: nat, l: nat ensures Pair(Quoted(b, rest), u, l) <==> Pair(b, u, l) {
        PairInside(b, rest, u, l);
      }
    }
  }

  lemma EscapeLeaves(t: string)
    requires Escape(t).Some?
    ensures var u := Escape(t).value.1; |u| < |t| && u == t[|t| - |u|..]
  {
    hide Hex4, LowSurrogate, Utf8.EncodeRune, Simple;
  }

  lemma SpellsEscape(b: string, n: nat, e: string, s: string)
    requires 0 < n <= |b| && b[0] == '\\' && EscapeText(b, n, e) && Spells(b[n..], s)
    ensures Spells(b, e + s)
  {
    hide EscapeText;
    assert e <= e + s && (e + s)[|e|..] == s;
  }

  lemma SpellsNothing()
    ensures Spells("", "")
  {
  }

  lemma SpellsPlain(b: string, s: string)
    requires b != "" && b[0] as int >= 0x20 && b[0] != '\"' && b[0] != '\\' && Spells(b[1..], s)
    ensures Spells(b, [b[0]] + s)
  {
    assert ([b[0]] + s)[1..] == s;
  }

  /** What is read as a literal is one. */
  lemma {:induction false} LiteralIsText(t: string) returns (b: string)
    requires Literal(t).Some?
    ensures t == Quoted(b, Literal(t).value.1) && Spells(b, Literal(t).value.0)
    decreases |t|
  {
    hide EscapeText, Escape, Spells;
    var c := t[0];
    if c == '\"' {
      b := "";
      SpellsNothing();
      assert t == "\"" + t[1..];
    } else if c == '\\' {
      var (e, u) := Escape(t[1..]).value;
      EscapeLeaves(t[1..]);
      var n := |t| - |u|;
      assert u == t[n..];
      EscapeIsText(t, n, e);
      var rest := LiteralIsText(u);
      b := t[..n] + rest;
      assert t == Quoted(b, Literal(u).value.1);
      EscapeInside(b, Literal(u).value.1, n, e);
      assert b[n..] == rest;
      SpellsEscape(b, n, e, Literal(u).value.0);
    } else {
      var rest := LiteralIsText(t[1..]);
      b := [c] + rest;
      assert t == Quoted(b, Literal(t[1..]).value.1);
      assert b[1..] == rest;
      SpellsPlain(b, Literal(t[1..]).value.0);
    }
  }

  lemma EscapeReads(t: string, n: nat, e: string, s: string, rest: string)
    requires 0 < n <= |t| && t[0] == '\\' && Escape(t[1..]) == Some((e, t[n..])) && Literal(t[n..]) == Some((s, rest))
    ensures Literal(t) == Some((e + s, rest))
  {
    hide Escape;
  }

  lemma PlainReads(c: char, u: string, s: string, rest: string)
    requires c as int >= 0x20 && c != '\"' && c != '\\' && Literal(u) == Some((s, rest))
    ensures Literal([c] + u) == Some(([c] + s, rest))
  {
    assert ([c] + u)[1..] == u;
  }

  lemma EndReads(rest: string)
    ensures Literal(Quoted("", rest)) == Some(("", rest))
  {
    assert Quoted("", rest)[1..] == rest;
  }

  /** A literal is read for what it stands for, whatever follows it. */
  lemma {:induction false} TextIsLiteral(b: string, s: string, rest: string)
    requires Spells(b, s)
    ensures Literal(Quoted(b, rest)) == Some((s, rest))
    decreases |b|
  {
    hide EscapeText, Escape, Literal, Quoted;
    if b == "" {
      EndReads(rest);
    } else if b[0] == '\\' {
      var n: nat, e: string :| 0 < n <= |b| && EscapeText(b, n, e) && e <= s && Spells(b[n..], s[|e|..]);
      EscapeInside(b, rest, n, e);
      QuotedParts(b, rest, n);
      EscapeIsText(Quoted(b, rest), n, e);
      TextIsLiteral(b[n..], s[|e|..], rest);
      EscapeReads(Quoted(b, rest), n, e, s[|e|..], rest);
      assert s == e + s[|e|..];
    } else {
      QuotedParts(b, rest, 1);
      assert b[..1] == [b[0]];
      TextIsLiteral(b[1..], s[1..], rest);
      PlainReads(b[0], Quoted(b[1..], rest), s[1..], rest);
      assert s == [s[0]] + s[1..];
    }
  }

  lemma QuotedParts(b: string, rest: string, n: nat)
    requires 0 < n <= |b|
    ensures var t := Quoted(b, rest); |t| >= n && t[0] == b[0] && t[n..] == Quoted(b[n..], rest)
    ensures Quoted(b, rest) == b[..n] + Quoted(b[n..], rest)
  {
    assert b == b[..n] + b[n..];
  }

  // ---------- What is read is in the grammar ----------

  lemma TextFrom(before: string, u: string, after: string, j: Json)
    requires White(before) && White(after) && ValueText(u, j)
    ensures Text(before + u + after, j)
  {
    hide ValueText, White;
    var t, a, b := before + u + after, |before|, |before| + |u|;
    assert t[..a] == before && t[b..] == after && t[a..b] == u;
  }

  lemma NameFrom(before: string, u: string, after: string, s: string)
    requires White(before) && White(after) && StringText(u, s)
    ensures NameText(before + u + after, s)
  {
    hide StringText, White;
    var t, a, b := before + u + after, |before|, |before| + |u|;
    assert t[..a] == before && t[b..] == after && t[a..b] == u;
  }

  lemma MemberFrom(name: string, value: string, m: Member)
    requires NameText(name, m.name) && Text(value, m.value)
    ensures MemberText(name + ":" + value, m)
  {
    hide NameText, Text;
    var t, k := name + ":" + value, |name|;
    assert t[k] == ':' && t[..k] == name && t[k + 1..] == value;
  }

  lemma ItemsFrom(first: string, more: string, items: seq<Json>)
    requires |items| > 1 && Text(first, items[0]) && ItemsText(more, items[1..])
    ensures ItemsText(first + "," + more, items)
  {
    hide Text;
    var t, k := first + "," + more, |first|;
    assert t[k] == ',' && t[..k] == first && t[k + 1..] == more;
  }

  lemma MembersFrom(first: string, more: string, ms: seq<Member>)
    requires |ms| > 1 && MemberText(first, ms[0]) && MembersText(more, ms[1..])
    ensures MembersText(first + "," + more, ms)
  {
    hide MemberText;
    var t, k := first + "," + more, |first|;
    assert t[k] == ',' && t[..k] == first && t[k + 1..] == more;
  }

  lemma WhiteText(w: string, t: string, j: Json)
    requires White(w) && Text(t, j)
    ensures Text(w + t, j)
  {
    hide ValueText;
    var a, b :| 0 <= a <= b <= |t| && White(t[..a]) && White(t[b..]) && ValueText(t[a..b], j);
    TextFrom(w + t[..a], t[a..b], t[b..], j);
    assert w + t == w + t[..a] + t[a..b] + t[b..];
  }

  lemma WhiteName(w: string, t: string, s: string)
    requires White(w) && NameText(t, s)
    ensures NameText(w + t, s)
  {
    hide StringText;
    var a, b :| 0 <= a <= b <= |t| && White(t[..a]) && White(t[b..]) && StringText(t[a..b], s);
    NameFrom(w + t[..a], t[a..b], t[b..], s);
    assert w + t == w + t[..a] + t[a..b] + t[b..];
  }

  lemma WhiteMember(w: string, t: string, m: Member)
    requires White(w) && MemberText(t, m)
    ensures MemberText(w + t, m)
  {
    hide NameText, Text, White;
    var k :| 0 <= k < |t| && t[k] == ':' && NameText(t[..k], m.name) && Text(t[k + 1..], m.value);
    WhiteName(w, t[..k], m.name);
    MemberFrom(w + t[..k], t[k + 1..], m);
    assert w + t == w + t[..k] + ":" + t[k + 1..];
  }

  lemma WhiteItems(w: string, t: string, items: seq<Json>)
    requires items != [] && White(w) && ItemsText(t, items)
    ensures ItemsText(w + t, items)
  {
    hide Text, White;
    if |items| == 1 {
      WhiteText(w, t, items[0]);
    } else {
      var k :| 0 <= k < |t| && t[k] == ',' && Text(t[..k], items[0]) && ItemsText(t[k + 1..], items[1..]);
      WhiteText(w, t[..k], items[0]);
      ItemsFrom(w + t[..k], t[k + 1..], items);
      assert w + t == w + t[..k] + "," + t[k + 1..];
    }
  }

  lemma WhiteMembers(w: string, t: string, ms: seq<Member>)
    requires ms != [] && White(w) && MembersText(t, ms)
    ensures MembersText(w + t, ms)
  {
    hide MemberText, White;
    if |ms| == 1 {
      WhiteMember(w, t, ms[0]);
    } else {
      var k :| 0 <= k < |t| && t[k] == ',' && MemberText(t[..k], ms[0]) && MembersText(t[k + 1..], ms[1..]);
      WhiteMember(w, t[..k], ms[0]);
      MembersFrom(w + t[..k], t[k + 1..], ms);
      assert w + t == w + t[..k] + "," + t[k + 1..];
    }
  }

  lemma SkippedWhite(t: string) returns (w: string)
    ensures White(w) && t == w + SkipSpace(t)
  {
    SpaceIsWhite(t);
    w := Before(t, SkipSpace(t));
  }

  lemma StringIsText(t: string) returns (u: string)
    requires t != "" && t[0] == '\"' && Literal(t[1..]).Some?
    ensures t == u + Literal(t[1..]).value.1 && StringText(u, Literal(t[1..]).value.0)
  {
    hide Spells, Literal;
    var b := LiteralIsText(t[1..]);
    u := "\"" + b + "\"";
    assert t == "\"" + t[1..];
    assert u[1..|u| - 1] == b;
  }

  /** Whatever value is read off the front of a text is written there. */
  lemma {:induction false} ValueIsText(t: string) returns (u: string)
    requires Value(t).Some?
    ensures t == u + Value(t).value.1 && ValueText(u, Value(t).value.0)
    decreases |t|, 1
  {
    hide Literal, Items, Members, SkipNumber, SkipSpace, StringText, NumberText, ItemsText, MembersText;
    var c := t[0];
    if c == '\"' {
      u := StringIsText(t);
    } else if c == '[' {
      u := ArrayIsText(t);
    } else if c == '{' {
      u := ObjectIsText(t);
    } else if c == 'n' || c == 't' || c == 'f' {
      u := WordIsText(t);
    } else {
      NumberIsText(t);
      u := Before(t, SkipNumber(t).value);
    }
  }

  lemma WordIsText(t: string) returns (u: string)
    requires Word(t).Some?
    ensures t == u + Word(t).value.1 && ValueText(u, Word(t).value.0)
  {
    u := if "null" <= t then "null" else if "true" <= t then "true" else "false";
  }

  lemma ArrayIsText(t: string) returns (u: string)
    requires t != "" && t[0] == '[' && Array(SkipSpace(t[1..])).Some?
    ensures var (j, rest) := Array(SkipSpace(t[1..])).value; t == u + rest && ValueText(u, j)
    decreases |t|, 0
  {
    hide Items, SkipSpace, ItemsText, White;
    var w := SkippedWhite(t[1..]);
    var s := SkipSpace(t[1..]);
    var inside := w;
    if s != "" && s[0] == ']' {
      WhiteIsNoItems(w);
      assert s == "]" + s[1..];
    } else {
      var more := ItemsAreText(s);
      WhiteItems(w, more, Items(s).value.0);
      inside := w + more;
    }
    u := "[" + inside + "]";
    assert u[1..|u| - 1] == inside;
    assert t == "[" + t[1..];
  }

  lemma WhiteIsNoItems(w: string)
    requires White(w)
    ensures ItemsText(w, []) && MembersText(w, [])
  {
  }

  lemma ObjectIsText(t: string) returns (u: string)
    requires t != "" && t[0] == '{' && Object(SkipSpace(t[1..])).Some?
    ensures var (j, rest) := Object(SkipSpace(t[1..])).value; t == u + rest && ValueText(u, j)
    decreases |t|, 0
  {
    hide Members, SkipSpace, MembersText, White;
    var w := SkippedWhite(t[1..]);
    var s := SkipSpace(t[1..]);
    var inside := w;
    if s != "" && s[0] == '}' {
      WhiteIsNoItems(w);
      assert s == "}" + s[1..];
    } else {
      var more := MembersAreText(s);
      WhiteMembers(w, more, Members(s).value.0);
      inside := w + more;
    }
    u := "{" + inside + "}";
    assert u[1..|u| - 1] == inside;
    assert t == "{" + t[1..];
  }

  lemma ItemsAreText(t: string) returns (u: string)
    requires Items(t).Some?
    ensures var (vs, rest) := Items(t).value; vs != [] && t == u + "]" + rest && ItemsText(u, vs)
    decreases |t|, 2
  {
    hide Value, SkipSpace, ItemsText, ValueText, White;
    var (v, after) := Value(t).value;
    var x := ValueIsText(t);
    var w := SkippedWhite(after);
    WhiteNothing();
    TextFrom("", x, w, v);
    assert "" + x + w == x + w;
    var s := SkipSpace(after);
    if s[0] == ']' {
      u := x + w;
      OneItem(u, v);
      assert s == "]" + s[1..];
    } else {
      var space := SkippedWhite(s[1..]);
      var next := SkipSpace(s[1..]);
      var y := ItemsAreText(next);
      var (vs, rest) := Items(next).value;
      WhiteItems(space, y, vs);
      assert ([v] + vs)[1..] == vs;
      ItemsFrom(x + w, space + y, [v] + vs);
      u := x + w + "," + (space + y);
      assert s == "," + s[1..];
      assert t == u + "]" + rest;
    }
  }

  lemma WhiteNothing()
    ensures White("")
  {
  }

  lemma OneItem(t: string, v: Json)
    requires Text(t, v)
    ensures ItemsText(t, [v])
  {
    hide Text;
  }

  lemma OneMember(t: string, m: Member)
    requires MemberText(t, m)
    ensures MembersText(t, [m])
  {
    hide MemberText;
  }

  /** A name, a colon and a value at the front of t, and the text after them. */
  lemma MemberIsText(t: string, m: Member, end: string) returns (u: string)
    requires MemberFront(t, m, end)
    ensures t == u + end && MemberText(u, m)
    decreases |t|, 1
  {
    hide Literal, Value, SkipSpace, ValueText, White, StringText, MemberText, NameText, Text;
    var afterName := Literal(t[1..]).value.1;
    var c := SkipSpace(afterName);
    var v := SkipSpace(c[1..]);
    var q := StringIsText(t);
    var w1 := SkippedWhite(afterName);
    var w2 := SkippedWhite(c[1..]);
    var x := ValueIsText(v);
    var w3 := SkippedWhite(Value(v).value.1);
    WhiteNothing();
    NameFrom("", q, w1, m.name);
    TextFrom(w2, x, w3, m.value);
    MemberFrom("" + q + w1, w2 + x + w3, m);
    u := "" + q + w1 + ":" + (w2 + x + w3);
    assert c == ":" + c[1..];
    Joined(t, q, w1, w2, x, w3, end);
  }

  lemma Joined(t: string, q: string, w1: string, w2: string, x: string, w3: string, end: string)
    requires t == q + (w1 + (":" + (w2 + (x + (w3 + end)))))
    ensures t == "" + q + w1 + ":" + (w2 + x + w3) + end
  {
  }

  lemma MembersSplit(t: string) returns (m: Member, end: string)
    requires Members(t).Some?
    ensures MemberFront(t, m, end) && end != ""
    ensures end[0] == '}' ==> Members(t) == Some(([m], end[1..]))
    ensures end[0] != '}' ==>
      && end[0] == ',' && |SkipSpace(end[1..])| < |t| && Members(SkipSpace(end[1..])).Some?
      && var (ms, rest) := Members(SkipSpace(end[1..])).value; Members(t) == Some(([m] + ms, rest))
  {
    hide Literal, Value, SkipSpace;
    var (name, afterName) := Literal(t[1..]).value;
    var (v, afterValue) := Value(SkipSpace(SkipSpace(afterName)[1..])).value;
    m, end := Member(name, v), SkipSpace(afterValue);
  }

  lemma MembersAreText(t: string) returns (u: string)
    requires Members(t).Some?
    ensures var (ms, rest) := Members(t).value; ms != [] && t == u + "}" + rest && MembersText(u, ms)
    decreases |t|, 2
  {
    hide Members, MemberFront, SkipSpace, MembersText, MemberText, White;
    var m, s := MembersSplit(t);
    var x := MemberIsText(t, m, s);
    if s[0] == '}' {
      u := x;
      OneMember(u, m);
      assert s == "}" + s[1..];
    } else {
      var space := SkippedWhite(s[1..]);
      var next := SkipSpace(s[1..]);
      var y := MembersAreText(next);
      var (ms, rest) := Members(next).value;
      WhiteMembers(space, y, ms);
      assert ([m] + ms)[1..] == ms;
      MembersFrom(x, space + y, [m] + ms);
      u := x + "," + (space + y);
      assert s == "," + s[1..];
      assert t == u + "}" + rest;
    }
  }

  // ---------- What is in the grammar is read ----------

  lemma NoSpaceToSkip(t: string)
    requires t == "" || !IsSpace(t[0])
    ensures SkipSpace(t) == t
  {
  }

  lemma TextParts(t: string, j: Json) returns (before: string, u: string, after: string)
    requires Text(t, j)
    ensures White(before) && White(after) && ValueText(u, j) && t == before + u + after
  {
    hide ValueText, White;
    var a, b :| 0 <= a <= b <= |t| && White(t[..a]) && White(t[b..]) && ValueText(t[a..b], j);
    before, u, after := t[..a], t[a..b], t[b..];
  }

  lemma NameParts(t: string, s: string) returns (before: string, u: string, after: string)
    requires NameText(t, s)
    ensures White(before) && White(after) && StringText(u, s) && t == before + u + after
  {
    hide StringText, White;
    var a, b :| 0 <= a <= b <= |t| && White(t[..a]) && White(t[b..]) && StringText(t[a..b], s);
    before, u, after := t[..a], t[a..b], t[b..];
  }

  lemma WhiteFollows(w: string, sep: char, tail: string)
    requires White(w) && (sep == ',' || sep == ']' || sep == '}')
    ensures Follows(w + [sep] + tail) && SkipSpace(w + [sep] + tail) == [sep] + tail
  {
    assert w + [sep] + tail == w + ([sep] + tail);
    WhiteIsSkipped(w, [sep] + tail);
  }

  lemma StringReads(u: string, s: string, rest: string)
    requires StringText(u, s)
    ensures u != "" && u[0] == '\"' && Literal((u + rest)[1..]) == Some((s, rest))
  {
    hide Spells, Literal;
    var b := u[1..|u| - 1];
    assert (u + rest)[1..] == Quoted(b, rest);
    TextIsLiteral(b, s, rest);
  }

  /** A value is read off the front of a text, whatever may follow it. */
  lemma {:induction false} TextIsValue(u: string, j: Json, rest: string)
    requires ValueText(u, j) && Follows(rest)
    ensures u != "" && !IsSpace(u[0]) && u[0] != ']' && u[0] != '}'
    ensures Value(u + rest) == Some((j, rest))
    decreases j, 0
  {
    hide Literal, Items, Members, SkipNumber, SkipSpace, StringText, NumberText, ItemsText, MembersText, Follows;
    match j
    case Null => WordReads("null", rest);
    case Bool(b) => WordReads(u, rest);
    case Num(raw) =>
      TextIsNumber(raw);
      NumberReads(raw, rest);
    case Str(s) => StringReads(u, s, rest);
    case Arr(items) => TextIsArray(u, items, rest);
    case Obj(members) => TextIsObject(u, members, rest);
  }

  lemma TextIsArray(u: string, items: seq<Json>, rest: string)
    requires |u| >= 2 && u[0] == '[' && u[|u| - 1] == ']' && ItemsText(u[1..|u| - 1], items)
    ensures Value(u + rest) == Some((Arr(items), rest))
    decreases items, 1
  {
    hide Items, SkipSpace, ItemsText;
    var inside := u[1..|u| - 1];
    assert (u + rest)[1..] == inside + "]" + rest;
    if items == [] {
      NoItemsAreWhite(inside);
      WhiteFollows(inside, ']', rest);
      assert ("]" + rest)[1..] == rest;
    } else {
      TextIsItems(inside, items, rest);
    }
  }

  lemma NoItemsAreWhite(t: string)
    ensures ItemsText(t, []) ==> White(t)
    ensures MembersText(t, []) ==> White(t)
  {
  }

  lemma TextIsObject(u: string, ms: seq<Member>, rest: string)
    requires |u| >= 2 && u[0] == '{' && u[|u| - 1] == '}' && MembersText(u[1..|u| - 1], ms)
    ensures Value(u + rest) == Some((Obj(ms), rest))
    decreases ms, 1
  {
    hide Members, SkipSpace, MembersText;
    var inside := u[1..|u| - 1];
    assert (u + rest)[1..] == inside + "}" + rest;
    if ms == [] {
      NoItemsAreWhite(inside);
      WhiteFollows(inside, '}', rest);
      assert ("}" + rest)[1..] == rest;
    } else {
      TextIsMembers(inside, ms, rest);
    }
  }

  /** A value with white space around it and a separator behind it. */
  lemma TextReads(t: string, j: Json, sep: char, tail: string)
    requires Text(t, j) && (sep == ',' || sep == ']' || sep == '}')
    ensures var s := SkipSpace(t + [sep] + tail);
      && s != "" && s[0] != ']' && s[0] != '}'
      && Value(s).Some? && Value(s).value.0 == j && SkipSpace(Value(s).value.1) == [sep] + tail
    decreases j, 1
  {
    hide Value, SkipSpace, ValueText, Follows, White;
    var before, u, after := TextParts(t, j);
    var rest := after + [sep] + tail;
    WhiteFollows(after, sep, tail);
    TextIsValue(u, j, rest);
    assert t + [sep] + tail == before + (u + rest);
    WhiteIsSkipped(before, u + rest);
    NoSpaceToSkip(u + rest);
  }

  /** A value at the front of s, and what comes after it and white space. */
  predicate ItemFront(s: string, j: Json, end: string) {
    Value(s).Some? && Value(s).value.0 == j && SkipSpace(Value(s).value.1) == end
  }

  lemma LastItem(s: string, j: Json, tail: string)
    requires ItemFront(s, j, "]" + tail)
    ensures Items(s) == Some(([j], tail))
  {
    hide Value, SkipSpace;
    assert ("]" + tail)[1..] == tail;
  }

  lemma NextItem(s: string, j: Json, more: string, js: seq<Json>, tail: string)
    requires ItemFront(s, j, "," + more) && Items(SkipSpace(more)) == Some((js, tail))
    ensures Items(s) == Some(([j] + js, tail))
  {
    hide Value, SkipSpace;
    assert ("," + more)[1..] == more;
  }

  /** A text with what closes it, cut at a comma. */
  lemma CutAround(t: string, k: nat, close: string, tail: string)
    requires k < |t| && t[k] == ','
    ensures t + close + tail == t[..k] + "," + (t[k + 1..] + close + tail)
  {
    var rest := t[k + 1..] + close + tail;
    assert t == t[..k] + "," + t[k + 1..];
    assert t + close + tail == t[..k] + "," + rest;
  }

  lemma TextIsItems(t: string, items: seq<Json>, tail: string)
    requires items != [] && ItemsText(t, items)
    ensures var s := SkipSpace(t + "]" + tail); s != "" && s[0] != ']' && Items(s) == Some((items, tail))
    decreases items, 0
  {
    hide Value, SkipSpace, Text, Items;
    if |items| == 1 {
      TextReads(t, items[0], ']', tail);
      LastItem(SkipSpace(t + "]" + tail), items[0], tail);
      assert items == [items[0]];
    } else {
      var k :| 0 <= k < |t| && t[k] == ',' && Text(t[..k], items[0]) && ItemsText(t[k + 1..], items[1..]);
      var more := t[k + 1..] + "]" + tail;
      CutAround(t, k, "]", tail);
      TextReads(t[..k], items[0], ',', more);
      TextIsItems(t[k + 1..], items[1..], tail);
      NextItem(SkipSpace(t + "]" + tail), items[0], more, items[1..], tail);
      assert items == [items[0]] + items[1..];
    }
  }

  lemma NameReads(t: string, s: string, tail: string)
    requires NameText(t, s)
    ensures var u := SkipSpace(t + ":" + tail);
      u != "" && u[0] == '\"' && Literal(u[1..]).Some? && Literal(u[1..]).value.0 == s
      && SkipSpace(Literal(u[1..]).value.1) == ":" + tail
  {
    hide Literal, SkipSpace, StringText, White;
    var before, q, after := NameParts(t, s);
    var rest := after + ":" + tail;
    assert rest == after + (":" + tail);
    WhiteIsSkipped(after, ":" + tail);
    NoSpaceToSkip(":" + tail);
    StringReads(q, s, rest);
    assert t + ":" + tail == before + (q + rest);
    WhiteIsSkipped(before, q + rest);
    NoSpaceToSkip(q + rest);
  }

  /** A member at the front of s, and what comes after it and white space. */
  predicate MemberFront(s: string, m: Member, end: string) {
    && s != "" && s[0] == '\"' && Literal(s[1..]).Some? && Literal(s[1..]).value.0 == m.name
    && ColonFront(SkipSpace(Literal(s[1..]).value.1), m.value, end)
  }

  predicate ColonFront(c: string, j: Json, end: string) {
    && c != "" && c[0] == ':' && Value(SkipSpace(c[1..])).Some?
    && Value(SkipSpace(c[1..])).value.0 == j && SkipSpace(Value(SkipSpace(c[1..])).value.1) == end
  }

  lemma LastMember(s: string, m: Member, tail: string)
    requires MemberFront(s, m, "}" + tail)
    ensures Members(s) == Some(([m], tail))
  {
    hide Literal, Value, SkipSpace;
    assert ("}" + tail)[1..] == tail;
  }

  lemma NextMember(s: string, m: Member, more: string, ms: seq<Member>, tail: string)
    requires MemberFront(s, m, "," + more) && Members(SkipSpace(more)) == Some((ms, tail))
    ensures Members(s) == Some(([m] + ms, tail))
  {
    hide Literal, Value, SkipSpace;
    assert ("," + more)[1..] == more;
  }

  lemma MemberTextReads(t: string, m: Member, sep: char, tail: string)
    requires MemberText(t, m) && (sep == ',' || sep == ']' || sep == '}')
    ensures MemberFront(SkipSpace(t + [sep] + tail), m, [sep] + tail)
    decreases m, 2
  {
    hide Literal, Value, SkipSpace, NameText, Text;
    var k :| 0 <= k < |t| && t[k] == ':' && NameText(t[..k], m.name) && Text(t[k + 1..], m.value);
    var more := t[k + 1..] + [sep] + tail;
    assert t + [sep] + tail == t[..k] + ":" + more;
    NameReads(t[..k], m.name, more);
    assert (":" + more)[1..] == more;
    TextReads(t[k + 1..], m.value, sep, tail);
  }

  lemma TextIsMembers(t: string, ms: seq<Member>, tail: string)
    requires ms != [] && MembersText(t, ms)
    ensures var s := SkipSpace(t + "}" + tail); s != "" && s[0] != '}' && Members(s) == Some((ms, tail))
    decreases ms, 0
  {
    hide Literal, SkipSpace, MemberText, Members, ColonFront;
    if |ms| == 1 {
      MemberTextReads(t, ms[0], '}', tail);
      LastMember(SkipSpace(t + "}" + tail), ms[0], tail);
      assert ms == [ms[0]];
    } else {
      var k :| 0 <= k < |t| && t[k] == ',' && MemberText(t[..k], ms[0]) && MembersText(t[k + 1..], ms[1..]);
      var more := t[k + 1..] + "}" + tail;
      CutAround(t, k, "}", tail);
      MemberTextReads(t[..k], ms[0], ',', more);
      TextIsMembers(t[k + 1..], ms[1..], tail);
      NextMember(SkipSpace(t + "}" + tail), ms[0], more, ms[1..], tail);
      assert ms == [ms[0]] + ms[1..];
    }
  }

  /** The reader accepts exactly the texts of the grammar, each for its value. */
  lemma ParseIsTheGrammar(t: string, j: Json)
    ensures Parse(t) == Some(j) <==> Text(t, j)
  {
    hide Value, SkipSpace, ValueText, White;
    if Parse(t) == Some(j) {
      var before := SkippedWhite(t);
      var u := ValueIsText(SkipSpace(t));
      var rest := Value(SkipSpace(t)).value.1;
      var after := SkippedWhite(rest);
      TextFrom(before, u, after, j);
      assert t == before + u + after;
    }
    if Text(t, j) {
      var before, u, after := TextParts(t, j);
      WhiteFollowsAlone(after);
      TextIsValue(u, j, after);
      assert t == before + (u + after);
      WhiteIsSkipped(before, u + after);
      NoSpaceToSkip(u + after);
    }
  }

  lemma WhiteFollowsAlone(w: string)
    requires White(w)
    ensures Follows(w) && SkipSpace(w) == ""
  {
    WhiteIsSkipped(w, "");
    assert w + "" == w;
  }

  // ---------- What follows from it ----------

  /** Number literals of a text are those of the grammar. */
  lemma {:induction false} NumbersAreLiterals(t: string, j: Json)
    requires Text(t, j)
    ensures NumbersOk(j)
    decreases j
  {
    hide White, StringText, SkipNumber;
    var before, u, after := TextParts(t, j);
    match j
    case Num(raw) => TextIsNumber(raw);
    case Arr(items) => ItemNumbers(u[1..|u| - 1], items);
    case Obj(members) => MemberNumbers(u[1..|u| - 1], members);
    case _ =>
  }

  lemma {:induction false} ItemNumbers(t: string, items: seq<Json>)
    requires ItemsText(t, items)
    ensures forall i :: 0 <= i < |items| ==> NumbersOk(items[i])
    decreases items
  {
    hide Text, NumbersOk;
    if |items| == 1 {
      NumbersAreLiterals(t, items[0]);
    } else if items != [] {
      var k :| 0 <= k < |t| && t[k] == ',' && Text(t[..k], items[0]) && ItemsText(t[k + 1..], items[1..]);
      NumbersAreLiterals(t[..k], items[0]);
      ItemNumbers(t[k + 1..], items[1..]);
      assert items == [items[0]] + items[1..];
    }
  }

  lemma {:induction false} MemberNumbers(t: string, ms: seq<Member>)
    requires MembersText(t, ms)
    ensures forall i :: 0 <= i < |ms| ==> NumbersOk(ms[i].value)
    decreases ms
  {
    hide MemberText, NumbersOk;
    if |ms| == 1 {
      ValueNumbers(t, ms[0]);
    } else if ms != [] {
      var k :| 0 <= k < |t| && t[k] == ',' && MemberText(t[..k], ms[0]) && MembersText(t[k + 1..], ms[1..]);
      ValueNumbers(t[..k], ms[0]);
      MemberNumbers(t[k + 1..], ms[1..]);
      assert ms == [ms[0]] + ms[1..];
    }
  }

  lemma ValueNumbers(t: string, m: Member)
    requires MemberText(t, m)
    ensures NumbersOk(m.value)
    decreases m
  {
    hide Text, NameText, NumbersOk;
    var k :| 0 <= k < |t| && t[k] == ':' && NameText(t[..k], m.name) && Text(t[k + 1..], m.value);
    NumbersAreLiterals(t[k + 1..], m.value);
  }

  // ---------- The printer writes the shortest literals ----------

  lemma {:induction false} HighBytesPlain(s: string)
    requires forall i :: 0 <= i < |s| ==> s[i] as int >= 0x80
    ensures |EscapeAll(s)| == |s|
  {
    if s != "" {
      HighBytesPlain(s[1..]);
    }
  }

  lemma RuneCost(u: Utf8.Rune)
    ensures |EscapeAll(Utf8.EncodeRune(u))| <= 6
  {
    var e := Utf8.EncodeRune(u);
    if u < 0x80 {
      assert e[1..] == "";
      OneCost(e[0]);
    } else {
      HighBytesPlain(e);
    }
  }

  lemma OneCost(c: char)
    ensures |Escaped(c)| <= 6
  {
  }

  lemma ShortCost(c: char, e: string)
    requires ShortEscape(c, e)
    ensures |EscapeAll(e)| <= 2
  {
    assert e[1..] == "";
  }

  lemma EscapeCost(t: string, n: nat, e: string)
    requires EscapeText(t, n, e)
    ensures |EscapeAll(e)| <= n
  {
    hide Unit, Pair, ShortEscape, Utf8.EncodeRune, EscapeAll;
    if n == 2 {
      ShortCost(t[1], e);
    } else if n == 6 {
      if e == Utf8.EncodeRune(0xFFFD) {
        RuneCost(0xFFFD);
      } else {
        var u: nat :| Unit(t, u) && !High(u) && !Low(u) && u < 0x10000 && e == Utf8.EncodeRune(u);
        RuneCost(u);
      }
    } else {
      PairCost(t, e);
    }
  }

  lemma PairCost(t: string, e: string)
    requires EscapeText(t, 12, e)
    ensures |EscapeAll(e)| <= 12
  {
    hide Unit, ShortEscape, Utf8.EncodeRune, EscapeAll;
    var u: nat, l: nat :| Pair(t, u, l) && e == Utf8.EncodeRune(0x10000 + (u - 0xD800) * 0x400 + (l - 0xDC00));
    RuneCost(0x10000 + (u - 0xD800) * 0x400 + (l - 0xDC00));
  }

  lemma {:induction false} EscapeAllLength(a: string, b: string)
    ensures |EscapeAll(a + b)| == |EscapeAll(a)| + |EscapeAll(b)|
  {
    hide Escaped;
    if a == "" {
      assert a + b == b;
    } else {
      assert (a + b)[1..] == a[1..] + b;
      EscapeAllLength(a[1..], b);
    }
  }

  /** No literal that stands for s is shorter than the printed one. */
  lemma {:induction false} PrintedIsShortest(t: string, s: string)
    requires Spells(t, s)
    ensures |EscapeAll(s)| <= |t|
    decreases |t|
  {
    hide EscapeText, EscapeAll;
    if t == "" {
      NothingToEscape();
    } else if t[0] == '\\' {
      var n: nat, e: string :| 0 < n <= |t| && EscapeText(t, n, e) && e <= s && Spells(t[n..], s[|e|..]);
      EscapeCost(t, n, e);
      PrintedIsShortest(t[n..], s[|e|..]);
      EscapeAllLength(e, s[|e|..]);
      assert s == e + s[|e|..];
    } else {
      PrintedIsShortest(t[1..], s[1..]);
      PlainCost(s);
    }
  }

  lemma NothingToEscape()
    ensures EscapeAll("") == ""
  {
  }

  lemma PlainCost(s: string)
    requires s != "" && s[0] as int >= 0x20 && s[0] != '\"' && s[0] != '\\'
    ensures |EscapeAll(s)| == 1 + |EscapeAll(s[1..])|
  {
  }
}
