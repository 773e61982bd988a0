/** JSON texts: the printer's form of a value and the reader's grammar (RFC 8259).

The printer writes no white space and escapes only what it must; the reader takes the whole
grammar. That they undo each other is in JsonRoundTrip.dfy, and what they keep of UTF-8 in
JsonUtf8.dfy. */
module Json {
  import opened Wrappers
  import opened Decimal
  import Utf8

  datatype Json =
    | Null
    | Bool(b: bool)
    | Num(raw: string)               // the literal, as the text has it
    | Str(s: string)
    | Arr(items: seq<Json>)
    | Obj(members: seq<Member>)      // in text order

  datatype Member = Member(name: string, value: Json)

  // ---------- Printing ----------

  const HEX_DIGITS := "0123456789abcdef"

  /** The escape of one byte, or the empty string when the byte is written as it is. */
  function EscapeOf(c: char): string {
    if c == '\"' then "\\\""
    else if c == '\\' then "\\\\"
    else if c as int == 0x08 then "\\b"
    else if c as int == 0x0C then "\\f"
    else if c == '\n' then "\\n"
    else if c == '\r' then "\\r"
    else if c == '\t' then "\\t"
    else if c as int < 0x20 then "\\u00" + [HEX_DIGITS[c as int / 16]] + [HEX_DIGITS[c as int % 16]]
    else ""
  }

  /** What one byte becomes inside a string literal. */
  function Escaped(c: char): string {
    if EscapeOf(c) == "" then [c] else EscapeOf(c)
  }

  function EscapeAll(s: string): string {
    if s == "" then "" else Escaped(s[0]) + EscapeAll(s[1..])
  }

  function Quote(s: string): string {
    "\"" + EscapeAll(s) + "\""
  }

  function Print(j: Json): string {
    match j
    case Null => "null"
    case Bool(b) => if b then "true" else "false"
    case Num(raw) => raw
    case Str(s) => Quote(s)
    case Arr(items) => "[" + PrintItems(items) + "]"
    case Obj(members) => "{" + PrintMembers(members) + "}"
  }

  function PrintItems(js: seq<Json>): string {
    if js == [] then "" else Print(js[0]) + MoreItems(js[1..])
  }

  /** Items after the first, each with its comma. */
  function MoreItems(js: seq<Json>): string {
    if js == [] then "" else "," + Print(js[0]) + MoreItems(js[1..])
  }

  function PrintMember(m: Member): string {
    Quote(m.name) + ":" + Print(m.value)
  }

  function PrintMembers(ms: seq<Member>): string {
    if ms == [] then "" else PrintMember(ms[0]) + MoreMembers(ms[1..])
  }

  /** Members after the first, each with its comma. */
  function MoreMembers(ms: seq<Member>): string {
    if ms == [] then "" else "," + PrintMember(ms[0]) + MoreMembers(ms[1..])
  }

  // ---------- Reading ----------

  predicate IsSpace(c: char) {
    c == ' ' || c == '\t' || c == '\n' || c == '\r'
  }

  function SkipSpace(t: string): (rest: string)
    ensures |rest| <= |t|
  {
    if t != "" && IsSpace(t[0]) then SkipSpace(t[1..]) else t
  }

  function SkipDigits(t: string): (rest: string)
    ensures |rest| <= |t|
  {
    if t != "" && IsDigit(t[0]) then SkipDigits(t[1..]) else t
  }

  /** The text after the integer part of a number. */
  function SkipInteger(t: string): (r: Option<string>)
    ensures r.Some? ==> |r.value| < |t|
  {
    var u := if t != "" && t[0] == '-' then t[1..] else t;
    if u == "" || !IsDigit(u[0]) then None
    else if u[0] == '0' then Some(u[1..])
    else Some(SkipDigits(u))
  }

  function SkipFraction(t: string): (rest: string)
    ensures |rest| <= |t|
  {
    if |t| >= 2 && t[0] == '.' && IsDigit(t[1]) then SkipDigits(t[1..]) else t
  }

  function SkipExponent(t: string): (rest: string)
    ensures |rest| <= |t|
  {
    if |t| >= 2 && (t[0] == 'e' || t[0] == 'E') then
      var u := if t[1] == '+' || t[1] == '-' then t[2..] else t[1..];
      if u != "" && IsDigit(u[0]) then SkipDigits(u) else t
    else t
  }

  /** The text after a number (section 6 of RFC 8259). */
  function SkipNumber(t: string): (r: Option<string>)
    ensures r.Some? ==> |r.value| < |t|
  {
    var u :- SkipInteger(t);
    Some(SkipExponent(SkipFraction(u)))
  }

  function HexValue(c: char): (r: Option<nat>)
    ensures r.Some? ==> r.value < 16
  {
    if '0' <= c <= '9' then Some(c as int - '0' as int)
    else if 'a' <= c <= 'f' then Some(c as int - 'a' as int + 10)
    else if 'A' <= c <= 'F' then Some(c as int - 'A' as int + 10)
    else None
  }

  /** The code unit of the four hexadecimal digits t begins with. */
  function Hex4(t: string): (r: Option<nat>)
    ensures r.Some? ==> |t| >= 4 && r.value < 0x10000
  {
    if |t| < 4 then None
    else
      var a :- HexValue(t[0]);
      var b :- HexValue(t[1]);
      var c :- HexValue(t[2]);
      var d :- HexValue(t[3]);
      Some(0x1000 * a + 0x100 * b + 0x10 * c + d)
  }

  /** A low surrogate escaped at the front of t, as a code unit. */
  function LowSurrogate(t: string): (r: Option<nat>)
    ensures r.Some? ==> |t| >= 6 && 0xDC00 <= r.value < 0xE000
  {
    if |t| < 6 || t[0] != '\\' || t[1] != 'u' then None
    else
      var u :- Hex4(t[2..]);
      if 0xDC00 <= u < 0xE000 then Some(u) else None
  }

  /** What an escape stands for and the text after it; t begins after the backslash. An
  unpaired surrogate stands for U+FFFD. */
  function Escape(t: string): (r: Option<(string, string)>)
    ensures r.Some? ==> |r.value.1| < |t| && Utf8.Valid(r.value.0)
  {
    if t == "" then None
    else if t[0] == 'u' then
      var u :- Hex4(t[1..]);
      var low := LowSurrogate(t[5..]);
      if 0xD800 <= u < 0xDC00 && low.Some? then
        Some((Utf8.EncodeRune(0x10000 + (u - 0xD800) * 0x400 + (low.value - 0xDC00)), t[11..]))
      else if 0xD800 <= u < 0xE000 then Some((Utf8.EncodeRune(Utf8.REPLACEMENT), t[5..]))
      else Some((Utf8.EncodeRune(u), t[5..]))
    else
      var c :- Simple(t[0]);
      Utf8.RunAscii([c]);
      Some(([c], t[1..]))
  }

  function Simple(c: char): (r: Option<char>)
    ensures r.Some? ==> r.value as int < 0x80
  {
    if c == '\"' || c == '\\' || c == '/' then Some(c)
    else if c == 'b' then Some(8 as char)
    else if c == 'f' then Some(12 as char)
    else if c == 'n' then Some('\n')
    else if c == 'r' then Some('\r')
    else if c == 't' then Some('\t')
    else None
  }

  /** The rest of a string literal after its opening quote: what it stands for and the text
  after the closing quote (section 7 of RFC 8259). */
  function Literal(t: string): (r: Option<(string, string)>)
    ensures r.Some? ==> |r.value.1| < |t|
    decreases |t|
  {
    if t == "" || t[0] as int < 0x20 then None
    else if t[0] == '\"' then Some(("", t[1..]))
    else if t[0] == '\\' then
      var (e, u) :- Escape(t[1..]);
      var (s, rest) :- Literal(u);
      Some((e + s, rest))
    else
      var (s, rest) :- Literal(t[1..]);
      Some(([t[0]] + s, rest))
  }

  /** One value at the front of t, and the text after it. */
  function Value(t: string): (r: Option<(Json, string)>)
    ensures r.Some? ==> |r.value.1| < |t|
    decreases |t|, 1
  {
    if t == "" then None
    else if t[0] == '\"' then
      var (s, rest) :- Literal(t[1..]);
      Some((Str(s), rest))
    else if t[0] == '[' then Array(SkipSpace(t[1..]))
    else if t[0] == '{' then Object(SkipSpace(t[1..]))
    else if t[0] == 'n' || t[0] == 't' || t[0] == 'f' then Word(t)
    else
      var rest :- SkipNumber(t);
      Some((Num(t[..|t| - |rest|]), rest))
  }

  function Word(t: string): (r: Option<(Json, string)>)
    ensures r.Some? ==> |r.value.1| < |t|
  {
    if "null" <= t then Some((Null, t[4..]))
    else if "true" <= t then Some((Bool(true), t[4..]))
    else if "false" <= t then Some((Bool(false), t[5..]))
    else None
  }

  /** An array after its opening bracket. */
  function Array(t: string): (r: Option<(Json, string)>)
    ensures r.Some? ==> |r.value.1| < |t|
    decreases |t|, 3
  {
    if t != "" && t[0] == ']' then Some((Arr([]), t[1..]))
    else
      var (items, rest) :- Items(t);
      Some((Arr(items), rest))
  }

  /** An object after its opening brace. */
  function Object(t: string): (r: Option<(Json, string)>)
    ensures r.Some? ==> |r.value.1| < |t|
    decreases |t|, 3
  {
    if t != "" && t[0] == '}' then Some((Obj([]), t[1..]))
    else
      var (members, rest) :- Members(t);
      Some((Obj(members), rest))
  }

  /** Items, separated by commas, up to and with the closing bracket. */
  function Items(t: string): (r: Option<(seq<Json>, string)>)
    ensures r.Some? ==> |r.value.1| < |t|
    decreases |t|, 2
  {
    var (v, after) :- Value(t);
    var u := SkipSpace(after);
    if u == "" then None
    else if u[0] == ']' then Some(([v], u[1..]))
    else if u[0] == ',' then
      var (vs, rest) :- Items(SkipSpace(u[1..]));
      Some(([v] + vs, rest))
    else None
  }

  /** Members, separated by commas, up to and with the closing brace. */
  function Members(t: string): (r: Option<(seq<Member>, string)>)
    ensures r.Some? ==> |r.value.1| < |t|
    decreases |t|, 2
  {
    if t == "" || t[0] != '\"' then None
    else
      var (name, afterName) :- Literal(t[1..]);
      var c := SkipSpace(afterName);
      if c == "" || c[0] != ':' then None
      else
        var (v, afterValue) :- Value(SkipSpace(c[1..]));
        var u := SkipSpace(afterValue);
        if u == "" then None
        else if u[0] == '}' then Some(([Member(name, v)], u[1..]))
        else if u[0] == ',' then
          var (ms, rest) :- Members(SkipSpace(u[1..]));
          Some(([Member(name, v)] + ms, rest))
        else None
  }

  /** json.Unmarshal of a whole text: one value with white space around it. */
  function Parse(t: string): Option<Json> {
    var (j, rest) :- Value(SkipSpace(t));
    if SkipSpace(rest) == "" then Some(j) else None
  }
}
