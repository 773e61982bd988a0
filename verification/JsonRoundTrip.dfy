/** Reading undoes printing, whatever text follows. */
module JsonRoundTrip {
  import opened Wrappers
  import opened Decimal
  import opened Json

  /** A text that may follow a value: the end, white space, or a closing or separating byte. */
  predicate Follows(rest: string) {
    rest == "" || IsSpace(rest[0]) || rest[0] == ',' || rest[0] == ']' || rest[0] == '}'
  }

  predicate IsNumber(raw: string) {
    SkipNumber(raw) == Some("")
  }

  /** Every number literal in the value is one. */
  predicate NumbersOk(j: Json) {
    match j
    case Num(raw) => IsNumber(raw)
    case Arr(items) => forall i :: 0 <= i < |items| ==> NumbersOk(items[i])
    case Obj(members) => forall i :: 0 <= i < |members| ==> NumbersOk(members[i].value)
    case _ => true
  }

  // ---------- String literals ----------

  lemma HexDigitValue(d: nat)
    requires d < 16
    ensures HexValue(HEX_DIGITS[d]) == Some(d)
  {
  }

  /** Four hexadecimal digits of a byte below 0x80. */
  lemma UnicodeReads(h: char, l: char, c: char, rest: string)
    requires HexValue(h).Some? && HexValue(l).Some? && HexValue(h).value * 16 + HexValue(l).value == c as int < 0x80
    ensures Escape("u00" + [h] + [l] + rest) == Some(([c], rest))
  {
    var t := "u00" + [h] + [l] + rest;
    assert t[1..][0] == '0' && t[1..][1] == '0' && t[1..][2] == h && t[1..][3] == l;
    assert HexValue('0') == Some(0);
    hide HexValue;
    assert Hex4(t[1..]) == Some(c as int);
    assert t[5..] == rest;
  }

  lemma LongEscapeShape(c: char)
    requires EscapeOf(c) != "" && |EscapeOf(c)| != 2
    ensures c as int < 0x20
    ensures EscapeOf(c) == "\\u00" + [HEX_DIGITS[c as int / 16]] + [HEX_DIGITS[c as int % 16]]
  {
  }

  lemma ShortEscapeReads(c: char, rest: string)
    requires |EscapeOf(c)| == 2
    ensures EscapeOf(c)[0] == '\\'
    ensures Escape((EscapeOf(c) + rest)[1..]) == Some(([c], rest))
  {
    var t := (EscapeOf(c) + rest)[1..];
    assert t[1..] == rest;
  }

  /** Reading the escape of one byte gives the byte, and the text after the escape. */
  lemma EscapeOfReads(c: char, rest: string)
    requires EscapeOf(c) != ""
    ensures EscapeOf(c)[0] == '\\'
    ensures Escape((EscapeOf(c) + rest)[1..]) == Some(([c], rest))
  {
    hide EscapeOf, Escape, HexValue;
    if |EscapeOf(c)| == 2 {
      ShortEscapeReads(c, rest);
    } else {
      LongEscapeShape(c);
      HexDigitValue(c as int / 16);
      HexDigitValue(c as int % 16);
      var h, l := HEX_DIGITS[c as int / 16], HEX_DIGITS[c as int % 16];
      UnicodeReads(h, l, c, rest);
      assert ("\\u00" + [h] + [l] + rest)[1..] == "u00" + [h] + [l] + rest;
    }
  }

  lemma Regroup(a: string, b: string, c: string, d: string)
    ensures a + b + c + d == a + (b + c + d)
  {
  }

  lemma EscapedReads(c: char, u: string, s: string, rest: string)
    requires Literal(u) == Some((s, rest))
    ensures Literal(Escaped(c) + u) == Some(([c] + s, rest))
  {
    var t := Escaped(c) + u;
    if EscapeOf(c) == "" {
      assert t[1..] == u;
    } else {
      EscapeOfReads(c, u);
      assert Literal(t) == Some(([c] + s, rest)) by {
        assert t[0] == '\\' && Escape(t[1..]) == Some(([c], u));
      }
    }
  }

  /** A quoted string is self-delimiting: read off the front of any longer text, it gives
  the original bytes and the untouched rest. */
  lemma {:induction false} LiteralOfEscape(s: string, rest: string)
    ensures Literal(EscapeAll(s) + "\"" + rest) == Some((s, rest))
    decreases |s|
  {
    hide Escaped, Escape;
    if s == "" {
      assert EscapeAll(s) + "\"" + rest == "\"" + rest;
      assert ("\"" + rest)[1..] == rest;
    } else {
      LiteralOfEscape(s[1..], rest);
      EscapedReads(s[0], EscapeAll(s[1..]) + "\"" + rest, s[1..], rest);
      Regroup(Escaped(s[0]), EscapeAll(s[1..]), "\"", rest);
      assert s == [s[0]] + s[1..];
    }
  }

  lemma QuoteReads(s: string, rest: string)
    ensures Quote(s) + rest != "" && (Quote(s) + rest)[0] == '\"'
    ensures Literal((Quote(s) + rest)[1..]) == Some((s, rest))
  {
    hide Literal, EscapeAll;
    LiteralOfEscape(s, rest);
    assert (Quote(s) + rest)[1..] == EscapeAll(s) + "\"" + rest;
  }

  // ---------- Numbers ----------

  lemma {:induction false} SkipDigitsAppend(a: string, b: string)
    requires b == "" || !IsDigit(b[0])
    ensures SkipDigits(a + b) == SkipDigits(a) + b
  {
    if a == "" {
      assert a + b == b;
    } else {
      assert (a + b)[1..] == a[1..] + b;
      SkipDigitsAppend(a[1..], b);
    }
  }

  lemma IntegerAppend(t: string, rest: string)
    requires SkipInteger(t).Some? && Follows(rest)
    ensures SkipInteger(t + rest) == Some(SkipInteger(t).value + rest)
  {
    var u := if t[0] == '-' then t[1..] else t;
    assert (t + rest)[1..] == t[1..] + rest;
    assert (u + rest)[1..] == u[1..] + rest;
    SkipDigitsAppend(u, rest);
  }

  lemma FractionAppend(t: string, rest: string)
    requires Follows(rest)
    ensures SkipFraction(t + rest) == SkipFraction(t) + rest
  {
    if t == "" {
      assert t + rest == rest;
    } else {
      assert (t + rest)[1..] == t[1..] + rest;
      SkipDigitsAppend(t[1..], rest);
    }
  }

  lemma ExponentAppend(t: string, rest: string)
    requires Follows(rest)
    ensures SkipExponent(t + rest) == SkipExponent(t) + rest
  {
    hide SkipDigits;
    if t == "" {
      assert t + rest == rest;
    } else if t[0] == 'e' || t[0] == 'E' {
      assert (t + rest)[1..] == t[1..] + rest;
      if |t| >= 2 {
        assert (t + rest)[2..] == t[2..] + rest;
        ExponentDigitsAppend(if t[1] == '+' || t[1] == '-' then t[2..] else t[1..], rest);
      }
    }
  }

  lemma ExponentDigitsAppend(u: string, rest: string)
    requires Follows(rest)
    ensures SkipDigits(u + rest) == SkipDigits(u) + rest
    ensures (u + rest != "" && IsDigit((u + rest)[0])) == (u != "" && IsDigit(u[0]))
  {
    SkipDigitsAppend(u, rest);
  }

  /** A number is read up to a byte that may follow it. */
  lemma NumberReads(raw: string, rest: string)
    requires IsNumber(raw) && Follows(rest)
    ensures raw != "" && (IsDigit(raw[0]) || raw[0] == '-')
    ensures Value(raw + rest) == Some((Num(raw), rest))
  {
    hide SkipInteger, SkipFraction, SkipExponent, Value;
    SkipNumberAppend(raw, rest);
    NumberStarts(raw);
    assert (raw + rest)[..|raw|] == raw;
    NumberValue(raw + rest);
  }

  lemma SkipNumberAppend(raw: string, rest: string)
    requires IsNumber(raw) && Follows(rest)
    ensures SkipNumber(raw + rest) == Some(rest)
  {
    hide SkipInteger, SkipFraction, SkipExponent;
    var u := SkipInteger(raw).value;
    IntegerAppend(raw, rest);
    FractionAppend(u, rest);
    ExponentAppend(SkipFraction(u), rest);
    assert "" + rest == rest;
  }

  lemma NumberStarts(raw: string)
    requires IsNumber(raw)
    ensures raw != "" && (IsDigit(raw[0]) || raw[0] == '-')
  {
  }

  /** A text that begins like a number is read as one. */
  lemma NumberValue(t: string)
    requires t != "" && (IsDigit(t[0]) || t[0] == '-') && SkipNumber(t).Some?
    ensures Value(t) == Some((Num(t[..|t| - |SkipNumber(t).value|]), SkipNumber(t).value))
  {
    hide SkipNumber;
  }

  lemma {:induction false} SkipAllDigits(s: string)
    requires AllDigits(s)
    ensures SkipDigits(s) == ""
  {
    if s != "" {
      SkipAllDigits(s[1..]);
    }
  }

  lemma FormatIntIsNumber(n: int)
    ensures IsNumber(FormatInt(n))
  {
    var d := FormatUint(if n < 0 then -n else n);
    SkipAllDigits(d);
    if n < 0 {
      assert FormatInt(n)[1..] == d;
    }
    assert d[0] == '0' ==> d == "0";
  }

  // ---------- Values ----------

  lemma {:induction false} PrintStarts(j: Json)
    requires NumbersOk(j)
    ensures Print(j) != "" && !IsSpace(Print(j)[0]) && Print(j)[0] != ']'
  {
    if j.Num? {
      NumberReads(j.raw, "");
    }
  }

  /** Reading a printed value off the front of any text that may follow it gives the value
  and leaves that text. */
  lemma {:induction false} ValueOfPrint(j: Json, rest: string)
    requires NumbersOk(j) && Follows(rest)
    ensures Value(Print(j) + rest) == Some((j, rest))
    decreases j, 1
  {
    match j
    case Null => WordReads("null", rest);
    case Bool(b) => WordReads(Print(j), rest);
    case Num(raw) => NumberReads(raw, rest);
    case Str(s) => QuoteReads(s, rest);
    case Arr(items) =>
      ArrayOfPrint(items, rest);
      Opened("[", PrintItems(items), "]", rest);
    case Obj(members) =>
      ObjectOfPrint(members, rest);
      Opened("{", PrintMembers(members), "}", rest);
  }

  lemma WordReads(word: string, rest: string)
    requires word == "null" || word == "true" || word == "false"
    ensures Word(word + rest) == Some((if word == "null" then Null else Bool(word == "true"), rest))
  {
    var t := word + rest;
    assert t[|word|..] == rest;
    assert t[0] == word[0];
  }

  lemma Opened(open: string, body: string, close: string, rest: string)
    requires |open| == 1
    ensures (open + body + close + rest)[0] == open[0]
    ensures (open + body + close + rest)[1..] == body + close + rest
  {
  }

  // The text of a list from its second element on, grouped as the reader sees it.

  function ItemsThen(js: seq<Json>, rest: string): (t: string)
    ensures Follows(t) && SkipSpace(t) == t
  {
    if js == [] then "]" + rest else "," + (Print(js[0]) + ItemsThen(js[1..], rest))
  }

  function MembersThen(ms: seq<Member>, rest: string): (t: string)
    ensures Follows(t) && SkipSpace(t) == t
  {
    if ms == [] then "}" + rest
    else "," + MemberThen(ms[0], MembersThen(ms[1..], rest))
  }

  lemma {:induction false} MoreItemsThen(js: seq<Json>, rest: string)
    ensures MoreItems(js) + "]" + rest == ItemsThen(js, rest)
  {
    hide Print, SkipSpace;
    if js == [] {
      assert MoreItems(js) + "]" + rest == "]" + rest;
    } else {
      MoreItemsThen(js[1..], rest);
      assert MoreItems(js) + "]" + rest == "," + (Print(js[0]) + (MoreItems(js[1..]) + "]" + rest));
    }
  }

  lemma {:induction false} MoreMembersThen(ms: seq<Member>, rest: string)
    ensures MoreMembers(ms) + "}" + rest == MembersThen(ms, rest)
  {
    hide Quote, Print, SkipSpace;
    if ms == [] {
      assert MoreMembers(ms) + "}" + rest == "}" + rest;
    } else {
      MoreMembersThen(ms[1..], rest);
      assert MoreMembers(ms) + "}" + rest == "," + MemberThen(ms[0], MoreMembers(ms[1..]) + "}" + rest);
    }
  }

  lemma {:induction false} ItemsRead(js: seq<Json>, rest: string)
    requires js != [] && forall i :: 0 <= i < |js| ==> NumbersOk(js[i])
    ensures Items(Print(js[0]) + ItemsThen(js[1..], rest)) == Some((js, rest))
    decreases js, 0
  {
    var more := js[1..];
    var then_ := ItemsThen(more, rest);
    ValueOfPrint(js[0], then_);
    assert js == [js[0]] + more;
    if more == [] {
      assert js == [js[0]];
      assert then_[1..] == rest;
    } else {
      var next := Print(more[0]) + ItemsThen(more[1..], rest);
      assert then_[1..] == next;
      PrintStarts(more[0]);
      assert SkipSpace(next) == next;
      ItemsRead(more, rest);
    }
  }

  lemma {:induction false} ArrayOfPrint(js: seq<Json>, rest: string)
    requires forall i :: 0 <= i < |js| ==> NumbersOk(js[i])
    ensures Array(SkipSpace(PrintItems(js) + "]" + rest)) == Some((Arr(js), rest))
    decreases js, 1
  {
    if js == [] {
      assert PrintItems(js) + "]" + rest == "]" + rest;
      assert ("]" + rest)[1..] == rest;
    } else {
      MoreItemsThen(js[1..], rest);
      Regroup(Print(js[0]), MoreItems(js[1..]), "]", rest);
      PrintStarts(js[0]);
      ItemsRead(js, rest);
    }
  }

  /** The text of a member and of those after it. */
  function MemberThen(m: Member, then_: string): string {
    Quote(m.name) + (":" + (Print(m.value) + then_))
  }

  lemma MemberStarts(m: Member, then_: string)
    ensures SkipSpace(MemberThen(m, then_)) == MemberThen(m, then_)
  {
    assert MemberThen(m, then_)[0] == '\"';
  }

  /** What one turn of the member reader does with a printed member. */
  lemma MemberReads(m: Member, then_: string)
    requires Value(Print(m.value) + then_) == Some((m.value, then_))
    requires NumbersOk(m.value) && then_ != "" && SkipSpace(then_) == then_
    ensures then_[0] == '}' ==> Members(MemberThen(m, then_)) == Some(([m], then_[1..]))
    ensures then_[0] == ',' && Members(SkipSpace(then_[1..])).Some? ==>
      var (ms, rest) := Members(SkipSpace(then_[1..])).value;
      Members(MemberThen(m, then_)) == Some(([m] + ms, rest))
  {
    hide Literal, Value, Print, Quote, Items;
    var value := Print(m.value) + then_;
    QuoteReads(m.name, ":" + value);
    assert (":" + value)[1..] == value;
    PrintStarts(m.value);
    assert SkipSpace(value) == value;
  }

  lemma {:induction false} MembersRead(ms: seq<Member>, rest: string)
    requires ms != [] && forall i :: 0 <= i < |ms| ==> NumbersOk(ms[i].value)
    ensures Members(MemberThen(ms[0], MembersThen(ms[1..], rest))) == Some((ms, rest))
    decreases ms, 0
  {
    hide Literal, Quote, Print, Items, Value;
    var more := ms[1..];
    var then_ := MembersThen(more, rest);
    ValueOfPrint(ms[0].value, then_);
    MemberReads(ms[0], then_);
    assert ms == [ms[0]] + more;
    if more == [] {
      assert ms == [ms[0]];
      assert then_[1..] == rest;
    } else {
      var next := MemberThen(more[0], MembersThen(more[1..], rest));
      assert then_ == "," + next;
      assert then_[1..] == next;
      MemberStarts(more[0], MembersThen(more[1..], rest));
      MembersRead(more, rest);
    }
  }

  lemma MemberRegroup(m: Member, then_: string)
    ensures PrintMember(m) + then_ == MemberThen(m, then_)
  {
  }

  lemma {:induction false} ObjectOfPrint(ms: seq<Member>, rest: string)
    requires forall i :: 0 <= i < |ms| ==> NumbersOk(ms[i].value)
    ensures Object(SkipSpace(PrintMembers(ms) + "}" + rest)) == Some((Obj(ms), rest))
    decreases ms, 1
  {
    if ms == [] {
      assert PrintMembers(ms) + "}" + rest == "}" + rest;
      assert ("}" + rest)[1..] == rest;
    } else {
      var t := MemberThen(ms[0], MembersThen(ms[1..], rest));
      assert PrintMembers(ms) + "}" + rest == t by {
        Regroup(PrintMember(ms[0]), MoreMembers(ms[1..]), "}", rest);
        MoreMembersThen(ms[1..], rest);
        MemberRegroup(ms[0], MembersThen(ms[1..], rest));
      }
      assert t[0] == '\"';
      MembersRead(ms, rest);
    }
  }

  /** Reading a whole text undoes printing; so the printer is injective. */
  lemma ParseOfPrint(j: Json)
    requires NumbersOk(j)
    ensures Parse(Print(j)) == Some(j)
  {
    PrintStarts(j);
    ValueOfPrint(j, "");
    assert Print(j) + "" == Print(j);
  }
}
