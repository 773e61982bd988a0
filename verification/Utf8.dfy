/** UTF-8 validity (section 4 of RFC 3629) of byte strings.

A Go string is a sequence of bytes. Here it is a `string` that holds one character per
byte, the character with the byte's code, so that keys and tags can be written as text. */
module Utf8 {

  /** What has to follow after the bytes read so far. */
  datatype State =
    | Start            // between two characters
    | One              // one continuation byte
    | Two              // two continuation bytes
    | Three            // three continuation bytes
    | AfterE0          // A0..BF, then one more (no overlong form)
    | AfterED          // 80..9F, then one more (no surrogate)
    | AfterF0          // 90..BF, then two more (no overlong form)
    | AfterF4          // 80..8F, then two more (at most U+10FFFF)
    | Bad

  function Step(q: State, c: char): State {
    var b := c as int;
    match q
    case Start =>
      if b < 0x80 then Start
      else if 0xC2 <= b <= 0xDF then One
      else if b == 0xE0 then AfterE0
      else if b == 0xED then AfterED
      else if 0xE1 <= b <= 0xEF then Two
      else if b == 0xF0 then AfterF0
      else if 0xF1 <= b <= 0xF3 then Three
      else if b == 0xF4 then AfterF4
      else Bad
    case One => if 0x80 <= b <= 0xBF then Start else Bad
    case Two => if 0x80 <= b <= 0xBF then One else Bad
    case Three => if 0x80 <= b <= 0xBF then Two else Bad
    case AfterE0 => if 0xA0 <= b <= 0xBF then One else Bad
    case AfterED => if 0x80 <= b <= 0x9F then One else Bad
    case AfterF0 => if 0x90 <= b <= 0xBF then Two else Bad
    case AfterF4 => if 0x80 <= b <= 0x8F then Two else Bad
    case Bad => Bad
  }

  function Run(q: State, s: string): State
    decreases |s|
  {
    if s == "" then q else Run(Step(q, s[0]), s[1..])
  }

  /** Whether s is a sequence of whole UTF-8 characters. */
  predicate Valid(s: string) {
    Run(Start, s) == Start
  }

  predicate Ascii(s: string) {
    forall i :: 0 <= i < |s| ==> s[i] as int < 0x80
  }

  lemma {:induction false} RunAppend(q: State, a: string, b: string)
    ensures Run(q, a + b) == Run(Run(q, a), b)
    decreases |a|
  {
    if a == "" {
      assert a + b == b;
    } else {
      assert (a + b)[1..] == a[1..] + b;
      RunAppend(Step(q, a[0]), a[1..], b);
    }
  }

  lemma {:induction false} RunBad(s: string)
    ensures Run(Bad, s) == Bad
  {
    if s != "" {
      RunBad(s[1..]);
    }
  }

  lemma {:induction false} RunAscii(s: string)
    requires Ascii(s)
    ensures Run(Start, s) == Start
  {
    if s != "" {
      RunAscii(s[1..]);
    }
  }

  // Unicode scalar values and their encoding.

  type Rune = r: int | (0 <= r < 0xD800) || (0xE000 <= r < 0x110000) witness 0

  const REPLACEMENT: Rune := 0xFFFD

  /** utf8.AppendRune: the bytes of one scalar value. */
  function EncodeRune(r: Rune): (s: string)
    ensures Valid(s) && 1 <= |s| <= 4
  {
    if r < 0x80 then
      RunAscii([r as char]);
      [r as char]
    else if r < 0x800 then
      Encode2(r / 0x40, r % 0x40)
    else if r < 0x10000 then
      Encode3(r / 0x1000, r / 0x40 % 0x40, r % 0x40)
    else
      Encode4(r / 0x40000, r / 0x1000 % 0x40, r / 0x40 % 0x40, r % 0x40)
  }

  function Encode2(a: int, b: int): (s: string)
    requires 2 <= a < 0x20 && 0 <= b < 0x40
    ensures Valid(s) && |s| == 2
  {
    Bytes2(0xC0 + a, 0x80 + b)
  }

  /** No overlong form and no surrogate. */
  function Encode3(a: int, b: int, c: int): (s: string)
    requires 0 <= a < 0x10 && 0 <= b < 0x40 && 0 <= c < 0x40
    requires (a == 0 ==> b >= 0x20) && (a == 0xD ==> b < 0x20)
    ensures Valid(s) && |s| == 3
  {
    Bytes3(0xE0 + a, 0x80 + b, 0x80 + c)
  }

  /** No overlong form and at most U+10FFFF. */
  function Encode4(a: int, b: int, c: int, d: int): (s: string)
    requires 0 <= a <= 4 && 0 <= b < 0x40 && 0 <= c < 0x40 && 0 <= d < 0x40
    requires (a == 0 ==> b >= 0x10) && (a == 4 ==> b < 0x10)
    ensures Valid(s) && |s| == 4
  {
    Bytes4(0xF0 + a, 0x80 + b, 0x80 + c, 0x80 + d)
  }

  function Bytes2(a: int, b: int): (s: string)
    requires 0 <= a < 256 && 0 <= b < 256
    ensures |s| == 2 && Run(Start, s) == Step(Step(Start, a as char), b as char)
  {
    var s := [a as char, b as char];
    assert s[1..] == [b as char] && s[1..][1..] == "";
    assert Run(Start, s) == Run(Step(Start, a as char), s[1..]);
    s
  }

  function Bytes3(a: int, b: int, c: int): (s: string)
    requires 0 <= a < 256 && 0 <= b < 256 && 0 <= c < 256
    ensures |s| == 3 && Run(Start, s) == Step(Step(Step(Start, a as char), b as char), c as char)
  {
    RunAppend(Start, Bytes2(a, b), [c as char]);
    assert [c as char][1..] == "";
    Bytes2(a, b) + [c as char]
  }

  function Bytes4(a: int, b: int, c: int, d: int): (s: string)
    requires 0 <= a < 256 && 0 <= b < 256 && 0 <= c < 256 && 0 <= d < 256
    ensures |s| == 4
    ensures Run(Start, s) == Step(Step(Step(Step(Start, a as char), b as char), c as char), d as char)
  {
    RunAppend(Start, Bytes3(a, b, c), [d as char]);
    assert [d as char][1..] == "";
    Bytes3(a, b, c) + [d as char]
  }

  // ---------- Valid is a sequence of scalar values ----------

  /** The encodings of scalar values, one after the other. */
  ghost predicate Runes(s: string)
    decreases |s|
  {
    s == "" || exists r: Rune :: EncodeRune(r) <= s && Runes(s[|EncodeRune(r)|..])
  }

  lemma Ended(q: State, s: string)
    requires Run(q, s) == Start && q != Start
    ensures s != "" && Run(Step(q, s[0]), s[1..]) == Start && Step(q, s[0]) != Bad && 0x80 <= s[0] as int < 0xC0
  {
    if s != "" {
      RunBad(s[1..]);
    }
  }

  lemma FirstOfTwo(s: string) returns (r: Rune)
    requires Valid(s) && s != "" && Step(Start, s[0]) == One
    ensures EncodeRune(r) <= s && Valid(s[|EncodeRune(r)|..])
  {
    Ended(One, s[1..]);
    var a, b := s[0] as int - 0xC0, s[1] as int - 0x80;
    r := a * 0x40 + b;
    assert r / 0x40 == a && r % 0x40 == b;
    assert s[1..][1..] == s[2..];
    assert s[..2] == EncodeRune(r);
  }

  lemma FirstOfThree(s: string) returns (r: Rune)
    requires Valid(s) && s != "" && Step(Start, s[0]) in {Two, AfterE0, AfterED}
    ensures EncodeRune(r) <= s && Valid(s[|EncodeRune(r)|..])
  {
    Ended(Step(Start, s[0]), s[1..]);
    Ended(One, s[1..][1..]);
    var a, b, c := s[0] as int - 0xE0, s[1] as int - 0x80, s[2] as int - 0x80;
    var n := a * 0x1000 + b * 0x40 + c;
    ThreeDigits(a, b, c);
    r := n;
    assert s[1..][1..][1..] == s[3..];
    assert s[..3] == EncodeRune(r);
  }

  lemma ThreeDigits(a: int, b: int, c: int)
    requires a >= 0 && 0 <= b < 0x40 && 0 <= c < 0x40
    ensures var n := a * 0x1000 + b * 0x40 + c; n / 0x1000 == a && n / 0x40 % 0x40 == b && n % 0x40 == c
  {
    var n := a * 0x1000 + b * 0x40 + c;
    assert n / 0x40 == a * 0x40 + b;
  }

  lemma FourDigits(a: int, b: int, c: int, d: int)
    requires a >= 0 && 0 <= b < 0x40 && 0 <= c < 0x40 && 0 <= d < 0x40
    ensures var n := (a * 0x40 + b) * 0x1000 + c * 0x40 + d;
      n / 0x40000 == a && n / 0x1000 % 0x40 == b && n / 0x40 % 0x40 == c && n % 0x40 == d
  {
    ThreeDigits(a * 0x40 + b, c, d);
    var n := (a * 0x40 + b) * 0x1000 + c * 0x40 + d;
    assert n / 0x1000 == a * 0x40 + b;
  }

  lemma EncodesFour(r: Rune, a: int, b: int, c: int, d: int)
    requires 0 <= a <= 4 && 0 <= b < 0x40 && 0 <= c < 0x40 && 0 <= d < 0x40
    requires r == (a * 0x40 + b) * 0x1000 + c * 0x40 + d && r >= 0x10000
    ensures EncodeRune(r) == [(0xF0 + a) as char, (0x80 + b) as char, (0x80 + c) as char, (0x80 + d) as char]
  {
    FourDigits(a, b, c, d);
  }

  lemma FourBytes(s: string)
    requires Valid(s) && s != "" && Step(Start, s[0]) in {Three, AfterF0, AfterF4}
    ensures |s| >= 4 && 0xF0 <= s[0] as int <= 0xF4 && forall i :: 1 <= i < 4 ==> 0x80 <= s[i] as int < 0xC0
    ensures (s[0] as int == 0xF0 ==> s[1] as int >= 0x90) && (s[0] as int == 0xF4 ==> s[1] as int < 0x90)
    ensures Valid(s[4..])
  {
    Ended(Step(Start, s[0]), s[1..]);
    Ended(Two, s[1..][1..]);
    Ended(One, s[1..][1..][1..]);
    assert s[1..][1..][1..][1..] == s[4..];
  }

  lemma FirstOfFour(s: string) returns (r: Rune)
    requires Valid(s) && s != "" && Step(Start, s[0]) in {Three, AfterF0, AfterF4}
    ensures EncodeRune(r) <= s && Valid(s[|EncodeRune(r)|..])
  {
    FourBytes(s);
    hide Step, Run;
    var a, b, c, d := s[0] as int - 0xF0, s[1] as int - 0x80, s[2] as int - 0x80, s[3] as int - 0x80;
    r := (a * 0x40 + b) * 0x1000 + c * 0x40 + d;
    EncodesFour(r, a, b, c, d);
    hide EncodeRune;
    assert s[..4] == [s[0], s[1], s[2], s[3]];
  }

  lemma FirstRune(s: string) returns (r: Rune)
    requires Valid(s) && s != ""
    ensures EncodeRune(r) <= s && Valid(s[|EncodeRune(r)|..])
  {
    hide EncodeRune;
    RunBad(s[1..]);
    if Step(Start, s[0]) == Start {
      r := FirstOfOne(s);
    } else if Step(Start, s[0]) == One {
      r := FirstOfTwo(s);
    } else if Step(Start, s[0]) in {Two, AfterE0, AfterED} {
      r := FirstOfThree(s);
    } else {
      r := FirstOfFour(s);
    }
  }

  lemma FirstOfOne(s: string) returns (r: Rune)
    requires Valid(s) && s != "" && Step(Start, s[0]) == Start
    ensures EncodeRune(r) <= s && Valid(s[|EncodeRune(r)|..])
  {
    r := s[0] as int;
    assert s[..1] == EncodeRune(r);
  }

  /** A string is valid exactly when it encodes scalar values: no surrogate, no overlong form, nothing cut. */
  lemma {:induction false} ValidIsRunes(s: string)
    ensures Valid(s) <==> Runes(s)
    decreases |s|
  {
    hide EncodeRune;
    if s != "" {
      if Valid(s) {
        var r := FirstRune(s);
        ValidIsRunes(s[|EncodeRune(r)|..]);
      }
      if Runes(s) {
        var r: Rune :| EncodeRune(r) <= s && Runes(s[|EncodeRune(r)|..]);
        var n := |EncodeRune(r)|;
        ValidIsRunes(s[n..]);
        assert s == EncodeRune(r) + s[n..];
        RunAppend(Start, EncodeRune(r), s[n..]);
      }
    }
  }
}
