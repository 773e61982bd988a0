/** The text encoding/json writes, next to the one the link writes: it also escapes the separators
U+2028 and U+2029 and, unless told not to, the bytes <, > and &. In a JSON text all of these are
found inside strings only, so they may be replaced anywhere. */
module EncodingJson {
  import opened Wrappers
  import opened Decimal
  import opened Json

  /** t begins with U+2028 or U+2029. */
  predicate Separator(t: string) {
    |t| >= 3 && t[0] as int == 0xE2 && t[1] as int == 0x80 && (t[2] as int == 0xA8 || t[2] as int == 0xA9)
  }

  predicate Markup(html: bool, c: char) {
    html && (c == '<' || c == '>' || c == '&')
  }

  /** The escape at the front of t. */
  function FrontEscape(html: bool, t: string): string
    requires Separator(t) || (t != "" && Markup(html, t[0]))
  {
    if Separator(t) then (if t[2] as int == 0xA8 then "\\u2028" else "\\u2029")
    else if t[0] == '<' then "\\u003c"
    else if t[0] == '>' then "\\u003e"
    else "\\u0026"
  }

  function GoText(html: bool, t: string): string
    decreases |t|
  {
    if t == "" then ""
    else if Separator(t) then FrontEscape(html, t) + GoText(html, t[3..])
    else if Markup(html, t[0]) then FrontEscape(html, t) + GoText(html, t[1..])
    else [t[0]] + GoText(html, t[1..])
  }

  /** A byte that is never replaced. */
  predicate Kept(c: char) {
    c as int < 0x80 && c != '<' && c != '>' && c != '&'
  }

  lemma GoStep(html: bool, t: string)
    requires t != "" && Kept(t[0])
    ensures GoText(html, t) == [t[0]] + GoText(html, t[1..])
    ensures GoText(html, t)[1..] == GoText(html, t[1..])
  {
  }

  /** The text begins with the same byte or with a backslash. */
  lemma GoFront(html: bool, t: string)
    ensures GoText(html, t) == "" <==> t == ""
    ensures t != "" ==> GoText(html, t)[0] == t[0] || GoText(html, t)[0] == '\\'
  {
  }

  /** Nothing that is to be escaped is left. */
  lemma {:induction false} GoTextIsEscaped(html: bool, t: string)
    ensures forall i :: 0 <= i < |GoText(html, t)| ==> !Separator(GoText(html, t)[i..]) && !Markup(html, GoText(html, t)[i])
    decreases |t|
  {
    if t != "" {
      var n := if Separator(t) then 3 else 1;
      GoTextIsEscaped(html, t[n..]);
      if Separator(t) || Markup(html, t[0]) {
        EscapeIsClean(html, FrontEscape(html, t), GoText(html, t[n..]));
      } else {
        NoSeparatorMade(html, t);
        ByteIsClean(html, t[0], GoText(html, t[1..]));
      }
    }
  }

  /** A byte that is kept makes no separator with what becomes of the next ones. */
  lemma NoSeparatorMade(html: bool, t: string)
    requires t != "" && !Separator(t)
    ensures !Separator([t[0]] + GoText(html, t[1..]))
  {
    var u := t[1..];
    GoFront(html, u);
    if u != "" && !Separator(u) && !Markup(html, u[0]) {
      GoFront(html, u[1..]);
      assert GoText(html, u) == [u[0]] + GoText(html, u[1..]);
    }
  }

  lemma ByteIsClean(html: bool, c: char, rest: string)
    requires !Markup(html, c) && !Separator([c] + rest)
    requires forall i :: 0 <= i < |rest| ==> !Separator(rest[i..]) && !Markup(html, rest[i])
    ensures forall i :: 0 <= i < |[c] + rest| ==> !Separator(([c] + rest)[i..]) && !Markup(html, ([c] + rest)[i])
  {
    hide Separator, Markup;
    var r := [c] + rest;
    forall i | 0 <= i < |r| ensures !Separator(r[i..]) && !Markup(html, r[i]) {
      if i > 0 {
        assert r[i..] == rest[i - 1..];
      } else {
        assert r[0..] == r;
      }
    }
  }

  lemma EscapeIsClean(html: bool, e: string, rest: string)
    requires forall i :: 0 <= i < |e| ==> Kept(e[i])
    requires forall i :: 0 <= i < |rest| ==> !Separator(rest[i..]) && !Markup(html, rest[i])
    ensures forall i :: 0 <= i < |e + rest| ==> !Separator((e + rest)[i..]) && !Markup(html, (e + rest)[i])
  {
    var r := e + rest;
    forall i | 0 <= i < |r| ensures !Separator(r[i..]) && !Markup(html, r[i]) {
      if i < |e| {
        assert r[i] == e[i] && Kept(e[i]);
      } else {
        assert r[i..] == rest[i - |e|..];
      }
    }
  }

  lemma {:induction false} GoPrefix(html: bool, p: string, u: string)
    requires forall i :: 0 <= i < |p| ==> Kept(p[i])
    ensures GoText(html, p + u) == p + GoText(html, u)
  {
    if p == "" {
      assert p + u == u;
    } else {
      assert (p + u)[1..] == p[1..] + u;
      GoStep(html, p + u);
      GoPrefix(html, p[1..], u);
      assert p == [p[0]] + p[1..];
    }
  }

  /** The rest of a text after a prefix that is kept. */
  predicate KeptUpTo(t: string, rest: string) {
    |rest| <= |t| && t[|t| - |rest|..] == rest && forall i :: 0 <= i < |t| - |rest| ==> Kept(t[i])
  }

  lemma GoUpTo(html: bool, t: string, rest: string)
    requires KeptUpTo(t, rest)
    ensures GoText(html, t) == t[..|t| - |rest|] + GoText(html, rest)
  {
    assert t == t[..|t| - |rest|] + rest;
    GoPrefix(html, t[..|t| - |rest|], rest);
  }

  // ---------- White space and numbers ----------

  lemma {:induction false} GoSpace(html: bool, t: string)
    ensures SkipSpace(GoText(html, t)) == GoText(html, SkipSpace(t))
  {
    hide GoText;
    GoFront(html, t);
    if t != "" && IsSpace(t[0]) {
      GoStep(html, t);
      GoSpace(html, t[1..]);
    }
  }

  lemma {:induction false} GoDigits(html: bool, t: string)
    ensures SkipDigits(GoText(html, t)) == GoText(html, SkipDigits(t))
    ensures KeptUpTo(t, SkipDigits(t))
  {
    hide GoText, KeptUpTo;
    GoFront(html, t);
    if t != "" && IsDigit(t[0]) {
      GoStep(html, t);
      GoDigits(html, t[1..]);
      KeptOne(t);
      KeptFurther(t, t[1..], SkipDigits(t[1..]));
    } else {
      KeptAll(t);
    }
  }

  lemma KeptFurther(t: string, u: string, rest: string)
    requires KeptUpTo(t, u) && KeptUpTo(u, rest)
    ensures KeptUpTo(t, rest)
  {
    var n, m := |t| - |u|, |u| - |rest|;
    assert forall i | 0 <= i < |u| :: u[i] == t[n + i];
    assert t[n + m..] == u[m..];
  }

  lemma KeptOne(t: string)
    requires t != "" && Kept(t[0])
    ensures KeptUpTo(t, t[1..])
  {
  }

  lemma GoInteger(html: bool, t: string)
    requires SkipInteger(t).Some?
    ensures SkipInteger(GoText(html, t)) == Some(GoText(html, SkipInteger(t).value))
    ensures KeptUpTo(t, SkipInteger(t).value)
  {
    hide GoText, KeptUpTo, SkipDigits;
    var u := if t[0] == '-' then t[1..] else t;
    GoStep(html, t);
    GoStep(html, u);
    GoDigits(html, u);
    KeptAll(t);
    KeptOne(t);
    KeptOne(u);
    KeptFurther(t, u, SkipInteger(t).value);
  }

  lemma GoFraction(html: bool, t: string)
    ensures SkipFraction(GoText(html, t)) == GoText(html, SkipFraction(t))
    ensures KeptUpTo(t, SkipFraction(t))
  {
    hide GoText, KeptUpTo, SkipDigits;
    GoFront(html, t);
    KeptAll(t);
    if t != "" && t[0] == '.' {
      GoStep(html, t);
      GoFront(html, t[1..]);
      if |t| >= 2 && IsDigit(t[1]) {
        GoStep(html, t[1..]);
        GoDigits(html, t[1..]);
        KeptOne(t);
        KeptFurther(t, t[1..], SkipFraction(t));
      }
    }
  }

  /** The digits of an exponent and what follows them. */
  function AfterSign(t: string): string
    requires |t| >= 2
  {
    if t[1] == '+' || t[1] == '-' then t[2..] else t[1..]
  }

  lemma ExponentIs(t: string)
    ensures SkipExponent(t) ==
      if |t| >= 2 && (t[0] == 'e' || t[0] == 'E') && AfterSign(t) != "" && IsDigit(AfterSign(t)[0])
      then SkipDigits(AfterSign(t)) else t
  {
  }

  lemma GoAfterSign(html: bool, t: string)
    requires |t| >= 2 && Kept(t[0])
    ensures |GoText(html, t)| >= 2 && AfterSign(GoText(html, t)) == GoText(html, AfterSign(t))
    ensures KeptUpTo(t, AfterSign(t))
  {
    hide GoText, KeptUpTo;
    GoStep(html, t);
    GoFront(html, t[1..]);
    KeptOne(t);
    if t[1] == '+' || t[1] == '-' {
      GoStep(html, t[1..]);
      KeptOne(t[1..]);
      KeptFurther(t, t[1..], t[2..]);
    }
  }

  lemma GoExponent(html: bool, t: string)
    ensures SkipExponent(GoText(html, t)) == GoText(html, SkipExponent(t))
    ensures KeptUpTo(t, SkipExponent(t))
  {
    hide KeptUpTo, SkipExponent, AfterSign, GoText;
    ExponentIs(t);
    ExponentIs(GoText(html, t));
    GoFront(html, t);
    KeptAll(t);
    if t != "" && (t[0] == 'e' || t[0] == 'E') {
      GoStep(html, t);
      GoFront(html, t[1..]);
      if |t| >= 2 {
        var u := AfterSign(t);
        GoAfterSign(html, t);
        GoFront(html, u);
        if u != "" && IsDigit(u[0]) {
          GoStep(html, u);
          GoDigits(html, u);
          KeptFurther(t, u, SkipDigits(u));
        }
      }
    }
  }

  lemma KeptAll(t: string)
    ensures KeptUpTo(t, t)
  {
  }

  lemma GoNumber(html: bool, t: string)
    requires SkipNumber(t).Some?
    ensures SkipNumber(GoText(html, t)) == Some(GoText(html, SkipNumber(t).value))
    ensures KeptUpTo(t, SkipNumber(t).value)
  {
    hide SkipInteger, SkipFraction, SkipExponent, KeptUpTo;
    var u := SkipInteger(t).value;
    GoInteger(html, t);
    GoFraction(html, u);
    GoExponent(html, SkipFraction(u));
    KeptFurther(t, u, SkipFraction(u));
    KeptFurther(t, SkipFraction(u), SkipExponent(SkipFraction(u)));
  }

  // ---------- Strings ----------

  lemma HexIsKept(c: char)
    requires HexValue(c).Some?
    ensures Kept(c)
  {
  }

  lemma {:induction false} GoTake(html: bool, t: string, n: nat)
    requires n <= |t| && forall i :: 0 <= i < n ==> Kept(t[i])
    ensures n <= |GoText(html, t)| && GoText(html, t)[..n] == t[..n] && GoText(html, t)[n..] == GoText(html, t[n..])
  {
    assert t == t[..n] + t[n..];
    GoPrefix(html, t[..n], t[n..]);
  }

  lemma Hex4Depends(t: string, u: string)
    requires |t| >= 4 && |u| >= 4 && u[..4] == t[..4]
    ensures Hex4(u) == Hex4(t)
  {
    assert u[0] == u[..4][0] && u[1] == u[..4][1] && u[2] == u[..4][2] && u[3] == u[..4][3];
    assert t[0] == t[..4][0] && t[1] == t[..4][1] && t[2] == t[..4][2] && t[3] == t[..4][3];
  }

  lemma Hex4IsKept(t: string)
    requires Hex4(t).Some?
    ensures forall i :: 0 <= i < 4 ==> Kept(t[i])
  {
  }

  lemma GoHex4(html: bool, t: string)
    requires Hex4(t).Some?
    ensures Hex4(GoText(html, t)) == Hex4(t) && GoText(html, t)[4..] == GoText(html, t[4..])
  {
    hide Hex4;
    Hex4IsKept(t);
    GoTake(html, t, 4);
    Hex4Depends(t, GoText(html, t));
  }

  /** Hexadecimal digits at the front of the text were there before. */
  lemma {:induction false} HexWasThere(html: bool, t: string, n: nat)
    requires n <= |GoText(html, t)| && forall i :: 0 <= i < n ==> HexValue(GoText(html, t)[i]).Some?
    ensures n <= |t| && forall i :: 0 <= i < n ==> HexValue(t[i]).Some?
  {
    if n > 0 {
      GoFront(html, t);
      HexIsKept(t[0]);
      GoStep(html, t);
      var u := GoText(html, t[1..]);
      assert forall i | 0 <= i < n - 1 :: u[i] == GoText(html, t)[i + 1];
      HexWasThere(html, t[1..], n - 1);
      assert forall i | 0 < i < n :: t[i] == t[1..][i - 1];
    }
  }

  lemma Hex4IsHex(t: string)
    ensures Hex4(t).Some? <==> |t| >= 4 && forall i :: 0 <= i < 4 ==> HexValue(t[i]).Some?
  {
  }

  lemma GoHex4Same(html: bool, t: string)
    ensures Hex4(GoText(html, t)) == Hex4(t)
  {
    hide Hex4, HexValue, GoText;
    Hex4IsHex(t);
    Hex4IsHex(GoText(html, t));
    if Hex4(t).Some? {
      GoHex4(html, t);
    } else if Hex4(GoText(html, t)).Some? {
      HexWasThere(html, t, 4);
    }
  }

  lemma FrontIsNoSurrogate(html: bool, t: string)
    requires Separator(t) || (t != "" && Markup(html, t[0]))
    ensures LowSurrogate(GoText(html, t)).None?
  {
    var e := FrontEscape(html, t);
    var g := GoText(html, t);
    assert e <= g && |e| == 6;
    assert g[2..][0] == e[2] && g[2..][1] == e[3] && g[2..][2] == e[4] && g[2..][3] == e[5];
  }

  lemma SurrogateIs(t: string)
    ensures LowSurrogate(t) ==
      if |t| >= 2 && t[0] == '\\' && t[1] == 'u' && Hex4(t[2..]).Some? && 0xDC00 <= Hex4(t[2..]).value < 0xE000
      then Hex4(t[2..]) else None
  {
    hide HexValue;
  }

  /** Two bytes that the text keeps, at its front. */
  lemma GoSurrogate(html: bool, t: string)
    ensures LowSurrogate(GoText(html, t)) == LowSurrogate(t)
  {
    hide LowSurrogate, Hex4;
    SurrogateIs(t);
    SurrogateIs(GoText(html, t));
    GoFront(html, t);
    if Separator(t) || (t != "" && Markup(html, t[0])) {
      FrontIsNoSurrogate(html, t);
    } else if t != "" && t[0] == '\\' {
      GoStep(html, t);
      GoFront(html, t[1..]);
      if |t| >= 2 && t[1] == 'u' {
        GoStep(html, t[1..]);
        GoHex4Same(html, t[2..]);
        assert GoText(html, t)[2..] == GoText(html, t[1..])[1..];
      }
    }
  }

  lemma SimpleIsKept(c: char)
    requires Simple(c).Some?
    ensures Kept(c)
  {
  }

  lemma GoUnicode(html: bool, t: string)
    requires t != "" && t[0] == 'u' && Hex4(t[1..]).Some?
    ensures var g := GoText(html, t);
      && g != "" && g[0] == 'u' && Hex4(g[1..]) == Hex4(t[1..]) && |t| >= 5 && |g| >= 5
      && LowSurrogate(g[5..]) == LowSurrogate(t[5..])
      && g[5..] == GoText(html, t[5..])
      && (LowSurrogate(t[5..]).Some? ==> |t| >= 11 && |g| >= 11 && g[11..] == GoText(html, t[11..]))
  {
    hide Hex4, LowSurrogate, GoText;
    var g := GoText(html, t);
    GoStep(html, t);
    GoHex4(html, t[1..]);
    assert t[1..][4..] == t[5..] && g[1..][4..] == g[5..];
    GoSurrogate(html, t[5..]);
    if LowSurrogate(t[5..]).Some? {
      SurrogateTaken(html, t[5..]);
      assert t[5..][6..] == t[11..] && g[5..][6..] == g[11..];
    }
  }

  lemma SurrogateTaken(html: bool, t: string)
    requires LowSurrogate(t).Some?
    ensures |t| >= 6 && |GoText(html, t)| >= 6 && GoText(html, t)[6..] == GoText(html, t[6..])
  {
    hide Hex4;
    Hex4IsKept(t[2..]);
    assert forall i | 2 <= i < 6 :: t[i] == t[2..][i - 2];
    GoTake(html, t, 6);
  }

  lemma GoEscape(html: bool, t: string)
    requires Escape(t).Some?
    ensures Escape(GoText(html, t)) == Some((Escape(t).value.0, GoText(html, Escape(t).value.1)))
  {
    hide Hex4, LowSurrogate, GoText, Utf8.EncodeRune;
    if t[0] == 'u' {
      GoUnicode(html, t);
    } else {
      SimpleIsKept(t[0]);
      GoStep(html, t);
    }
  }

  lemma SeparatorRune(n: int)
    requires n == 0x2028 || n == 0x2029
    ensures Utf8.EncodeRune(n) == [0xE2 as char, 0x80 as char, (0xA8 + n - 0x2028) as char]
  {
    assert n / 0x1000 == 2 && n / 0x40 % 0x40 == 0 && n % 0x40 == n - 0x2028 + 0x28;
    assert Utf8.EncodeRune(n) == Utf8.Encode3(2, 0, n - 0x2028 + 0x28);
    assert Utf8.Bytes2(0xE2, 0x80) == [0xE2 as char, 0x80 as char];
  }

  /** The number a front escape has. */
  function FrontRune(html: bool, t: string): (n: int)
    requires Separator(t) || (t != "" && Markup(html, t[0]))
    ensures 0 <= n < 0x3000
  {
    if Separator(t) then 0x2028 + t[2] as int - 0xA8 else t[0] as int
  }

  lemma FrontHex(html: bool, t: string)
    requires Separator(t) || (t != "" && Markup(html, t[0]))
    ensures var e := FrontEscape(html, t); |e| == 6 && e[0] == '\\' && e[1] == 'u' && Hex4(e[2..]) == Some(FrontRune(html, t))
  {
    var e := FrontEscape(html, t);
    assert e[2..][0] == e[2] && e[2..][1] == e[3] && e[2..][2] == e[4] && e[2..][3] == e[5];
  }

  /** What the front escape stands for is what it replaced. */
  lemma FrontIsRead(html: bool, t: string, rest: string)
    requires Separator(t) || (t != "" && Markup(html, t[0]))
    ensures var e := FrontEscape(html, t); var n := if Separator(t) then 3 else 1;
      |e| == 6 && e[0] == '\\' && Escape(e[1..] + rest) == Some((t[..n], rest))
  {
    hide Hex4, FrontEscape, LowSurrogate;
    var e := FrontEscape(html, t);
    FrontHex(html, t);
    var w := e[1..] + rest;
    assert w[1..] == e[2..] + rest && w[5..] == rest && w[0] == 'u';
    Hex4Depends(e[2..], w[1..]);
    hide Utf8.EncodeRune;
    assert Escape(w) == Some((Utf8.EncodeRune(FrontRune(html, t)), rest));
    FrontEncoded(html, t);
  }

  lemma FrontEncoded(html: bool, t: string)
    requires Separator(t) || (t != "" && Markup(html, t[0]))
    ensures Utf8.EncodeRune(FrontRune(html, t)) == t[..if Separator(t) then 3 else 1]
  {
    if Separator(t) {
      SeparatorRune(FrontRune(html, t));
    }
  }

  lemma LiteralOfEscape(w: string)
    requires w != "" && w[0] == '\\' && Escape(w[1..]).Some?
    ensures Literal(w) ==
      match Literal(Escape(w[1..]).value.1)
      case Some((s, rest)) => Some((Escape(w[1..]).value.0 + s, rest))
      case None => None
  {
  }

  lemma LiteralOfByte(t: string)
    requires t != "" && t[0] as int >= 0x20 && t[0] != '\"' && t[0] != '\\'
    ensures Literal(t).Some? <==> Literal(t[1..]).Some?
    ensures Literal(t).Some? ==> Literal(t) == Some(([t[0]] + Literal(t[1..]).value.0, Literal(t[1..]).value.1))
  {
  }

  lemma LiteralOfSeparator(t: string)
    requires Separator(t) && Literal(t).Some?
    ensures Literal(t[3..]).Some?
    ensures Literal(t) == Some((t[..3] + Literal(t[3..]).value.0, Literal(t[3..]).value.1))
  {
    hide Literal;
    var u, v := t[1..], t[2..];
    assert u[0] == t[1] && v[0] == t[2] && u[1..] == v && v[1..] == t[3..];
    LiteralOfByte(t);
    LiteralOfByte(u);
    LiteralOfByte(v);
    var s := Literal(t[3..]).value.0;
    assert [t[0]] + ([t[1]] + ([t[2]] + s)) == t[..3] + s;
  }

  /** A string literal stands for the same, and what follows it is the text of what followed. */
  lemma {:induction false} GoLiteral(html: bool, t: string)
    requires Literal(t).Some?
    ensures Literal(GoText(html, t)) == Some((Literal(t).value.0, GoText(html, Literal(t).value.1)))
    decreases |t|
  {
    hide Escape, GoText;
    if Separator(t) {
      LiteralOfSeparator(t);
      GoLiteral(html, t[3..]);
      FrontLiteral(html, t);
    } else if Markup(html, t[0]) {
      GoLiteral(html, t[1..]);
      FrontLiteral(html, t);
      assert t[..1] == [t[0]];
    } else {
      PlainStep(html, t);
      if t[0] == '\\' {
        GoEscape(html, t[1..]);
        GoLiteral(html, Escape(t[1..]).value.1);
      } else if t[0] != '\"' {
        GoLiteral(html, t[1..]);
      }
    }
  }

  lemma PlainStep(html: bool, t: string)
    requires t != "" && !Separator(t) && !Markup(html, t[0])
    ensures var g := GoText(html, t); g != "" && g[0] == t[0] && g[1..] == GoText(html, t[1..])
  {
  }

  lemma FrontLiteral(html: bool, t: string)
    requires Separator(t) || (t != "" && Markup(html, t[0]))
    requires var n := if Separator(t) then 3 else 1; Literal(GoText(html, t[n..])).Some?
    ensures var n := if Separator(t) then 3 else 1; var (s, rest) := Literal(GoText(html, t[n..])).value;
      Literal(GoText(html, t)) == Some((t[..n] + s, rest))
  {
    hide Escape, FrontEscape, Literal;
    var n := if Separator(t) then 3 else 1;
    var e, rest := FrontEscape(html, t), GoText(html, t[n..]);
    FrontIsRead(html, t, rest);
    assert (e + rest)[1..] == e[1..] + rest;
    assert GoText(html, t) == e + rest;
    LiteralOfEscape(e + rest);
  }

  // ---------- Values ----------

  lemma {:induction false} GoValue(html: bool, t: string)
    requires Value(t).Some?
    ensures Value(GoText(html, t)) == Some((Value(t).value.0, GoText(html, Value(t).value.1)))
    decreases |t|, 1
  {
    hide Literal, Items, Members, SkipNumber, SkipSpace, GoText, Escape, KeptUpTo;
    if t[0] == '\"' {
      GoStep(html, t);
      GoLiteral(html, t[1..]);
    } else if t[0] == '[' {
      GoStep(html, t);
      GoSpace(html, t[1..]);
      GoArray(html, SkipSpace(t[1..]));
    } else if t[0] == '{' {
      GoStep(html, t);
      GoSpace(html, t[1..]);
      GoObject(html, SkipSpace(t[1..]));
    } else if t[0] == 'n' || t[0] == 't' || t[0] == 'f' {
      GoWord(html, t);
    } else {
      GoNumberValue(html, t);
    }
  }

  lemma GoWord(html: bool, t: string)
    requires Word(t).Some?
    ensures Word(GoText(html, t)) == Some((Word(t).value.0, GoText(html, Word(t).value.1)))
    ensures GoText(html, t) != "" && GoText(html, t)[0] == t[0]
  {
    var n := |t| - |Word(t).value.1|;
    assert t[..n] == "null" || t[..n] == "true" || t[..n] == "false";
    assert forall i | 0 <= i < n :: t[i] == t[..n][i];
    hide GoText;
    GoTake(html, t, n);
    assert GoText(html, t)[0] == GoText(html, t)[..n][0];
  }

  lemma GoNumberValue(html: bool, t: string)
    requires SkipNumber(t).Some? && t != ""
    requires t[0] != '\"' && t[0] != '[' && t[0] != '{' && t[0] != 'n' && t[0] != 't' && t[0] != 'f'
    ensures Value(GoText(html, t)) == Some((Value(t).value.0, GoText(html, Value(t).value.1)))
  {
    hide SkipNumber, GoText;
    GoNumber(html, t);
    var rest := SkipNumber(t).value;
    NumberIsShorter(t);
    GoUpTo(html, t, rest);
    var raw := t[..|t| - |rest|];
    assert GoText(html, t) == raw + GoText(html, rest) && raw != "";
    assert GoText(html, t)[0] == t[0];
    assert GoText(html, t)[..|GoText(html, t)| - |GoText(html, rest)|] == raw;
  }

  lemma NumberIsShorter(t: string)
    requires SkipNumber(t).Some?
    ensures |SkipNumber(t).value| < |t|
  {
  }

  lemma {:induction false} GoArray(html: bool, t: string)
    requires Array(t).Some?
    ensures Array(GoText(html, t)) == Some((Array(t).value.0, GoText(html, Array(t).value.1)))
    decreases |t|, 3
  {
    hide Items, GoText;
    if t != "" && t[0] == ']' {
      GoStep(html, t);
    } else {
      GoItems(html, t);
      GoFront(html, t);
    }
  }

  lemma {:induction false} GoObject(html: bool, t: string)
    requires Object(t).Some?
    ensures Object(GoText(html, t)) == Some((Object(t).value.0, GoText(html, Object(t).value.1)))
    decreases |t|, 3
  {
    hide Members, GoText;
    if t != "" && t[0] == '}' {
      GoStep(html, t);
    } else {
      GoMembers(html, t);
      GoFront(html, t);
    }
  }

  lemma {:induction false} GoItems(html: bool, t: string)
    requires Items(t).Some?
    ensures Items(GoText(html, t)) == Some((Items(t).value.0, GoText(html, Items(t).value.1)))
    decreases |t|, 2
  {
    hide Value, SkipSpace, GoText;
    GoValue(html, t);
    var after := Value(t).value.1;
    GoSpace(html, after);
    var u := SkipSpace(after);
    GoStep(html, u);
    if u[0] == ',' {
      GoSpace(html, u[1..]);
      GoItems(html, SkipSpace(u[1..]));
    }
  }

  lemma {:induction false} GoMembers(html: bool, t: string)
    requires Members(t).Some?
    ensures Members(GoText(html, t)) == Some((Members(t).value.0, GoText(html, Members(t).value.1)))
    decreases |t|, 2
  {
    hide Literal, Value, SkipSpace, GoText;
    GoStep(html, t);
    GoLiteral(html, t[1..]);
    var afterName := Literal(t[1..]).value.1;
    GoSpace(html, afterName);
    var c := SkipSpace(afterName);
    GoStep(html, c);
    GoSpace(html, c[1..]);
    GoValue(html, SkipSpace(c[1..]));
    var afterValue := Value(SkipSpace(c[1..])).value.1;
    GoSpace(html, afterValue);
    var u := SkipSpace(afterValue);
    GoStep(html, u);
    if u[0] == ',' {
      GoSpace(html, u[1..]);
      GoMembers(html, SkipSpace(u[1..]));
    }
  }

  /** Whatever a text parses to, the text with the further escapes parses to. */
  lemma ParseOfGoText(html: bool, t: string)
    requires Parse(t).Some?
    ensures Parse(GoText(html, t)) == Parse(t)
  {
    hide Value, SkipSpace, GoText;
    GoSpace(html, t);
    GoValue(html, SkipSpace(t));
    var rest := Value(SkipSpace(t)).value.1;
    GoSpace(html, rest);
    GoFront(html, SkipSpace(rest));
  }

  lemma SeparatorKeepsState(q: Utf8.State, t: string)
    requires Separator(t)
    ensures Utf8.Run(q, t) == if q.Start? then Utf8.Run(Utf8.Start, t[3..]) else Utf8.Bad
  {
    var u, v := t[1..], t[2..];
    assert u[0] == t[1] && v[0] == t[2] && u[1..] == v && v[1..] == t[3..];
    if q.Start? {
      assert Utf8.Run(q, t) == Utf8.Run(Utf8.Two, u) == Utf8.Run(Utf8.One, v) == Utf8.Run(Utf8.Start, t[3..]);
    } else {
      Utf8.RunBad(u);
      assert Utf8.Step(q, t[0]) == Utf8.Bad;
    }
  }

  /** It is valid UTF-8 if the text is, from any state. */
  lemma {:induction false} GoKeepsUtf8(html: bool, q: Utf8.State, t: string)
    requires Utf8.Run(q, t) == Utf8.Start
    ensures Utf8.Run(q, GoText(html, t)) == Utf8.Start
    decreases |t|
  {
    hide FrontEscape;
    if t != "" {
      if Separator(t) {
        SeparatorKeepsState(q, t);
        GoKeepsUtf8(html, q, t[3..]);
        FrontIsAscii(html, t);
        Utf8.RunAppend(q, FrontEscape(html, t), GoText(html, t[3..]));
      } else if Markup(html, t[0]) {
        Utf8.RunBad(t[1..]);
        GoKeepsUtf8(html, Utf8.Step(q, t[0]), t[1..]);
        FrontIsAscii(html, t);
        Utf8.RunAppend(q, FrontEscape(html, t), GoText(html, t[1..]));
      } else {
        GoKeepsUtf8(html, Utf8.Step(q, t[0]), t[1..]);
        assert ([t[0]] + GoText(html, t[1..]))[1..] == GoText(html, t[1..]);
      }
    }
  }

  lemma FrontIsAscii(html: bool, t: string)
    requires Separator(t) || (t != "" && Markup(html, t[0]))
    ensures Utf8.Run(Utf8.Start, FrontEscape(html, t)) == Utf8.Start
  {
    Utf8.RunAscii(FrontEscape(html, t));
  }
}
