/** Printing and reading JSON both keep UTF-8 validity. */
module JsonUtf8 {
  import opened Decimal
  import opened Json
  import opened JsonRoundTrip
  import opened Utf8

  /** Every string and member name in the value is valid UTF-8. */
  predicate StringsValid(j: Json) {
    match j
    case Str(s) => Valid(s)
    case Arr(items) => forall i :: 0 <= i < |items| ==> StringsValid(items[i])
    case Obj(members) =>
      forall i :: 0 <= i < |members| ==> Valid(members[i].name) && StringsValid(members[i].value)
    case _ => true
  }

  // ---------- Printing ----------

  /** A printed text never ends inside a character: it is whole or it is broken. */
  function Whole(b: bool): State {
    if b then Start else Bad
  }

  lemma {:induction false} RunAsciiFrom(q: State, w: string)
    requires w != "" && Ascii(w)
    ensures Run(q, w) == Whole(q == Start)
  {
    if q == Start {
      RunAscii(w);
    } else {
      RunBad(w[1..]);
    }
  }

  lemma EscapeIsAscii(c: char)
    requires EscapeOf(c) != ""
    ensures Ascii(EscapeOf(c)) && c as int < 0x80
  {
  }

  lemma RunEscaped(q: State, c: char)
    ensures Run(q, Escaped(c)) == Step(q, c)
  {
    hide EscapeOf;
    if EscapeOf(c) == "" {
      assert [c][1..] == "";
    } else {
      EscapeIsAscii(c);
      RunAsciiFrom(q, EscapeOf(c));
    }
  }

  /** Escaping does not change what UTF-8 validity sees. */
  lemma {:induction false} RunEscapeAll(q: State, s: string)
    ensures Run(q, EscapeAll(s)) == Run(q, s)
    decreases |s|
  {
    hide Escaped, EscapeOf;
    if s != "" {
      RunEscaped(q, s[0]);
      RunAppend(q, Escaped(s[0]), EscapeAll(s[1..]));
      RunEscapeAll(Step(q, s[0]), s[1..]);
    }
  }

  lemma RunQuote(s: string)
    ensures Run(Start, Quote(s)) == Whole(Valid(s))
  {
    RunEscapeAll(Start, s);
    RunAppend(Start, "\"", EscapeAll(s));
    RunAscii("\"");
    RunAppend(Start, "\"" + EscapeAll(s), "\"");
    RunAsciiFrom(Run(Start, s), "\"");
  }

  lemma RunBoth(a: string, b: string, x: bool, y: bool)
    requires Run(Start, a) == Whole(x) && Run(Start, b) == Whole(y)
    ensures Run(Start, a + b) == Whole(x && y)
  {
    RunAppend(Start, a, b);
    RunBad(b);
  }

  lemma {:induction false} SkippedDigitsAscii(t: string)
    requires Ascii(SkipDigits(t))
    ensures Ascii(t)
  {
    if t != "" && IsDigit(t[0]) {
      SkippedDigitsAscii(t[1..]);
    }
  }

  lemma ExponentAscii(v: string)
    requires SkipExponent(v) == ""
    ensures Ascii(v)
  {
    if v != "" {
      SkippedDigitsAscii(if v[1] == '+' || v[1] == '-' then v[2..] else v[1..]);
    }
  }

  lemma FractionAscii(u: string)
    requires Ascii(SkipFraction(u))
    ensures Ascii(u)
  {
    if SkipFraction(u) != u {
      SkippedDigitsAscii(u[1..]);
    }
  }

  lemma IntegerAscii(t: string)
    requires SkipInteger(t).Some? && Ascii(SkipInteger(t).value)
    ensures Ascii(t) && t != ""
  {
    var u := if t[0] == '-' then t[1..] else t;
    if u[0] != '0' {
      SkippedDigitsAscii(u);
    }
    assert Ascii(u);
  }

  lemma NumberAscii(t: string)
    requires IsNumber(t)
    ensures Ascii(t) && t != ""
  {
    hide SkipExponent, SkipFraction, SkipInteger, Ascii;
    var u := SkipInteger(t).value;
    ExponentAscii(SkipFraction(u));
    FractionAscii(u);
    IntegerAscii(t);
  }

  lemma RunBracketed(open: string, body: string, close: string, valid: bool)
    requires Ascii(open) && Ascii(close) && Run(Start, body) == Whole(valid)
    ensures Run(Start, open + body + close) == Whole(valid)
  {
    hide Run;
    RunAscii(open);
    RunAscii(close);
    RunBoth(open, body, true, valid);
    RunBoth(open + body, close, valid, true);
  }

  /** A printed value is valid UTF-8 exactly when all its strings are. */
  lemma {:induction false} RunPrint(j: Json)
    requires NumbersOk(j)
    ensures Run(Start, Print(j)) == Whole(StringsValid(j))
    decreases j, 1
  {
    hide Quote, EscapeAll, Run, PrintItems, PrintMembers, IsNumber;
    match j
    case Null => RunAscii("null");
    case Bool(b) => RunAscii(Print(j));
    case Num(raw) => NumberAscii(raw); RunAscii(raw);
    case Str(s) => RunQuote(s);
    case Arr(items) =>
      RunItems(items);
      RunBracketed("[", PrintItems(items), "]", StringsValid(j));
    case Obj(members) =>
      RunMembers(members);
      RunBracketed("{", PrintMembers(members), "}", StringsValid(j));
  }

  lemma {:induction false} RunItems(items: seq<Json>)
    requires forall i :: 0 <= i < |items| ==> NumbersOk(items[i])
    ensures Run(Start, PrintItems(items)) == Whole(ItemsValid(items))
    decreases items, 3
  {
    hide Print, MoreItems;
    if items == [] {
      RunAscii("");
    } else {
      RunPrint(items[0]);
      RunMoreItems(items[1..]);
      RunBoth(Print(items[0]), MoreItems(items[1..]), StringsValid(items[0]), ItemsValid(items[1..]));
    }
  }

  lemma {:induction false} RunMembers(members: seq<Member>)
    requires forall i :: 0 <= i < |members| ==> NumbersOk(members[i].value)
    ensures Run(Start, PrintMembers(members)) == Whole(MembersValid(members))
    decreases members, 3
  {
    hide PrintMember, MoreMembers;
    if members == [] {
      RunAscii("");
    } else {
      RunMember(members[0]);
      RunMoreMembers(members[1..]);
      RunBoth(PrintMember(members[0]), MoreMembers(members[1..]), MemberValid(members[0]), MembersValid(members[1..]));
    }
  }

  predicate ItemsValid(js: seq<Json>) {
    forall i :: 0 <= i < |js| ==> StringsValid(js[i])
  }

  predicate MemberValid(m: Member) {
    Valid(m.name) && StringsValid(m.value)
  }

  predicate MembersValid(ms: seq<Member>) {
    forall i :: 0 <= i < |ms| ==> MemberValid(ms[i])
  }

  lemma {:induction false} RunMoreItems(js: seq<Json>)
    requires forall i :: 0 <= i < |js| ==> NumbersOk(js[i])
    ensures Run(Start, MoreItems(js)) == Whole(ItemsValid(js))
    decreases js, 0
  {
    if js == [] {
      RunAscii("");
    } else {
      RunAscii(",");
      RunPrint(js[0]);
      RunMoreItems(js[1..]);
      RunBoth(",", Print(js[0]), true, StringsValid(js[0]));
      RunBoth("," + Print(js[0]), MoreItems(js[1..]), StringsValid(js[0]), ItemsValid(js[1..]));
    }
  }

  lemma {:induction false} RunMember(m: Member)
    requires NumbersOk(m.value)
    ensures Run(Start, PrintMember(m)) == Whole(MemberValid(m))
    decreases m, 2
  {
    RunQuote(m.name);
    RunAscii(":");
    RunPrint(m.value);
    RunBoth(Quote(m.name), ":", Valid(m.name), true);
    RunBoth(Quote(m.name) + ":", Print(m.value), Valid(m.name), StringsValid(m.value));
  }

  lemma {:induction false} RunMoreMembers(ms: seq<Member>)
    requires forall i :: 0 <= i < |ms| ==> NumbersOk(ms[i].value)
    ensures Run(Start, MoreMembers(ms)) == Whole(MembersValid(ms))
    decreases ms, 0
  {
    if ms == [] {
      RunAscii("");
    } else {
      RunAscii(",");
      RunMember(ms[0]);
      RunMoreMembers(ms[1..]);
      RunBoth(",", PrintMember(ms[0]), true, MemberValid(ms[0]));
      RunBoth("," + PrintMember(ms[0]), MoreMembers(ms[1..]), MemberValid(ms[0]), MembersValid(ms[1..]));
    }
  }

  // ---------- Reading ----------

  lemma DropAscii(t: string, n: nat)
    requires Valid(t) && n <= |t| && Ascii(t[..n])
    ensures Valid(t[n..])
  {
    assert t == t[..n] + t[n..];
    RunAppend(Start, t[..n], t[n..]);
    RunAscii(t[..n]);
  }

  /** An escaped code unit takes six ASCII bytes, the first of them already read. */
  lemma UnitKeepsUtf8(t: string)
    requires Valid(t) && t != "" && t[0] == 'u' && Hex4(t[1..]).Some?
    ensures Valid(t[5..])
  {
    DropAscii(t, 1);
    DropAscii(t[1..], 4);
    assert t[1..][4..] == t[5..];
  }

  lemma EscapeKeepsUtf8(t: string)
    requires Valid(t) && Escape(t).Some?
    ensures Valid(Escape(t).value.1)
  {
    if t[0] == 'u' {
      UnitKeepsUtf8(t);
      var low := t[5..];
      if LowSurrogate(low).Some? {
        DropAscii(low, 1);
        assert low[1..][1..] == low[2..];
        UnitKeepsUtf8(low[1..]);
        assert low[1..][5..] == t[11..];
      }
    } else {
      DropAscii(t, 1);
    }
  }

  /** A literal read from valid UTF-8 stands for valid UTF-8 and leaves valid UTF-8, wherever
  in a character the reading starts. */
  lemma {:induction false} LiteralKeepsUtf8(q: State, t: string)
    requires Run(q, t) == Start && Literal(t).Some?
    ensures Run(q, Literal(t).value.0) == Start && Valid(Literal(t).value.1)
    decreases |t|
  {
    var c := t[0];
    RunBad(t[1..]);
    if c == '\"' {
    } else if c == '\\' {
      var (e, u) := Escape(t[1..]).value;
      EscapeKeepsUtf8(t[1..]);
      LiteralKeepsUtf8(Start, u);
      RunAppend(Start, e, Literal(u).value.0);
    } else {
      LiteralKeepsUtf8(Step(q, c), t[1..]);
      var s := Literal(t[1..]).value.0;
      assert ([c] + s)[1..] == s;
    }
  }

  lemma {:induction false} SpaceKeepsUtf8(t: string)
    requires Valid(t)
    ensures Valid(SkipSpace(t))
  {
    if t != "" && IsSpace(t[0]) {
      SpaceKeepsUtf8(t[1..]);
    }
  }

  lemma {:induction false} DigitsKeepUtf8(t: string)
    requires Valid(t)
    ensures Valid(SkipDigits(t))
  {
    if t != "" && IsDigit(t[0]) {
      DigitsKeepUtf8(t[1..]);
    }
  }

  lemma NumberKeepsUtf8(t: string)
    requires Valid(t) && SkipNumber(t).Some?
    ensures Valid(SkipNumber(t).value)
  {
    var m := if t[0] == '-' then t[1..] else t;
    DropAscii(t, 1);
    DropAscii(m, 1);
    DigitsKeepUtf8(m);
    var u := SkipInteger(t).value;
    if SkipFraction(u) != u {
      DropAscii(u, 1);
      DigitsKeepUtf8(u[1..]);
    }
    var v := SkipFraction(u);
    if SkipExponent(v) != v {
      DropAscii(v, 1);
      var w := if v[1] == '+' || v[1] == '-' then v[2..] else v[1..];
      if w == v[2..] {
        DropAscii(v, 2);
      }
      DigitsKeepUtf8(w);
    }
  }

  /** What is read from valid UTF-8 has only valid strings and leaves valid UTF-8. */
  lemma {:induction false} ValueKeepsUtf8(t: string)
    requires Valid(t) && Value(t).Some?
    ensures StringsValid(Value(t).value.0) && Valid(Value(t).value.1)
    decreases |t|, 1
  {
    hide Literal, Items, Members, SkipNumber, SkipSpace;
    if t[0] == '\"' {
      DropAscii(t, 1);
      LiteralKeepsUtf8(Start, t[1..]);
    } else if t[0] == '[' {
      DropAscii(t, 1);
      SpaceKeepsUtf8(t[1..]);
      var u := SkipSpace(t[1..]);
      if u != "" && u[0] == ']' {
        DropAscii(u, 1);
      } else {
        ItemsKeepUtf8(u);
      }
    } else if t[0] == '{' {
      DropAscii(t, 1);
      SpaceKeepsUtf8(t[1..]);
      var u := SkipSpace(t[1..]);
      if u != "" && u[0] == '}' {
        DropAscii(u, 1);
      } else {
        MembersKeepUtf8(u);
      }
    } else if t[0] == 'n' || t[0] == 't' || t[0] == 'f' {
      var n := |t| - |Word(t).value.1|;
      assert t[..n] == "null" || t[..n] == "true" || t[..n] == "false";
      DropAscii(t, n);
    } else {
      NumberKeepsUtf8(t);
    }
  }

  lemma {:induction false} ItemsKeepUtf8(t: string)
    requires Valid(t) && Items(t).Some?
    ensures ItemsValid(Items(t).value.0) && Valid(Items(t).value.1)
    decreases |t|, 2
  {
    ValueKeepsUtf8(t);
    SpaceKeepsUtf8(Value(t).value.1);
    var u := SkipSpace(Value(t).value.1);
    DropAscii(u, 1);
    if u[0] == ',' {
      SpaceKeepsUtf8(u[1..]);
      ItemsKeepUtf8(SkipSpace(u[1..]));
    }
  }

  lemma {:induction false} MembersKeepUtf8(t: string)
    requires Valid(t) && Members(t).Some?
    ensures MembersValid(Members(t).value.0) && Valid(Members(t).value.1)
    decreases |t|, 2
  {
    DropAscii(t, 1);
    LiteralKeepsUtf8(Start, t[1..]);
    var afterName := Literal(t[1..]).value.1;
    SpaceKeepsUtf8(afterName);
    var c := SkipSpace(afterName);
    DropAscii(c, 1);
    SpaceKeepsUtf8(c[1..]);
    ValueKeepsUtf8(SkipSpace(c[1..]));
    var afterValue := Value(SkipSpace(c[1..])).value.1;
    SpaceKeepsUtf8(afterValue);
    var u := SkipSpace(afterValue);
    DropAscii(u, 1);
    if u[0] == ',' {
      SpaceKeepsUtf8(u[1..]);
      MembersKeepUtf8(SkipSpace(u[1..]));
    }
  }

  lemma ParseKeepsUtf8(t: string)
    requires Valid(t) && Parse(t).Some?
    ensures StringsValid(Parse(t).value)
  {
    SpaceKeepsUtf8(t);
    ValueKeepsUtf8(SkipSpace(t));
  }
}
