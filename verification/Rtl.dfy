/** The class rewriter of apps/console/scripts/rtl-codemod.ts: physical Tailwind utilities made
logical, and a mirrored rtl: twin for every translate-x, over one class string. */
module Rtl {
  import opened JsText
  import opened Wrappers

  // ---------- Tokens ----------

  predicate NoSpace(s: string) {
    forall i :: 0 <= i < |s| ==> !IsSpace(s[i])
  }

  predicate Blank(s: string) {
    forall i :: 0 <= i < |s| ==> IsSpace(s[i])
  }

  /** The length of the leading run of spaces, or of other characters. */
  function RunLength(t: string, spaces: bool): (n: nat)
    ensures n <= |t| && (n < |t| ==> IsSpace(t[n]) != spaces)
    ensures forall i :: 0 <= i < n ==> IsSpace(t[i]) == spaces
  {
    if t != "" && IsSpace(t[0]) == spaces then 1 + RunLength(t[1..], spaces) else 0
  }

  /** text.split(/(\s+)/): words and the gaps between them, beginning and ending with a word
  that may be empty. */
  function Pieces(text: string): (ps: seq<string>)
    ensures ps != []
    decreases |text|
  {
    var n := RunLength(text, false);
    if n == |text| then [text]
    else
      var m := RunLength(text[n..], true);
      [text[..n], text[n..n + m]] + Pieces(text[n + m..])
  }

  function Concat(ps: seq<string>): string {
    if ps == [] then "" else ps[0] + Concat(ps[1..])
  }

  // ---------- Variants and utility ----------

  function DepthAfter(c: char, depth: int): int {
    if c == '[' || c == '(' then depth + 1
    else if c == ']' || c == ')' then depth - 1
    else depth
  }

  /** The parts of a token between the colons at depth 0, when t is read from some depth. */
  function Parts(t: string, depth: int): (ps: seq<string>)
    ensures ps != []
  {
    if t == "" then [""]
    else if t[0] == ':' && depth == 0 then [""] + Parts(t[1..], 0)
    else
      var ps := Parts(t[1..], DepthAfter(t[0], depth));
      [[t[0]] + ps[0]] + ps[1..]
  }

  datatype Token = Token(variants: seq<string>, utility: string)

  function SplitOf(token: string): Token {
    var ps := Parts(token, 0);
    Token(ps[..|ps| - 1], ps[|ps| - 1])
  }

  /** ps with s before its first part. */
  function Prefixed(s: string, ps: seq<string>): seq<string>
    requires ps != []
  {
    [s + ps[0]] + ps[1..]
  }

  /** One byte of the scan: a colon at depth 0 closes the part, anything else extends it. */
  lemma PartsStep(part: string, t: string, depth: int)
    requires t != ""
    ensures Prefixed(part, Parts(t, depth)) ==
      if t[0] == ':' && depth == 0 then [part] + Parts(t[1..], 0)
      else Prefixed(part + [t[0]], Parts(t[1..], DepthAfter(t[0], depth)))
  {
    assert part + "" == part;
    var rest := Parts(t[1..], DepthAfter(t[0], depth));
    assert part + ([t[0]] + rest[0]) == part + [t[0]] + rest[0];
  }

  lemma PartsEnd(part: string, depth: int)
    ensures Prefixed(part, Parts("", depth)) == [part]
  {
    assert part + "" == part;
  }

  lemma PartsStart(token: string, depth: int)
    ensures Parts(token, depth) == [] + Prefixed("", Parts(token, depth))
  {
    assert "" + Parts(token, depth)[0] == Parts(token, depth)[0];
  }

  /** The scan has come to i: parts are closed, and the open one began at start. */
  ghost predicate Scanned(token: string, parts: seq<string>, start: nat, i: nat, depth: int) {
    start <= i <= |token| && Parts(token, 0) == parts + Prefixed(token[start..i], Parts(token[i..], depth))
  }

  lemma ScanExtends(token: string, parts: seq<string>, start: nat, i: nat, depth: int)
    requires Scanned(token, parts, start, i, depth) && i < |token| && !(token[i] == ':' && depth == 0)
    ensures Scanned(token, parts, start, i + 1, DepthAfter(token[i], depth))
  {
    hide Parts, Prefixed;
    PartsStep(token[start..i], token[i..], depth);
    assert token[i..][1..] == token[i + 1..];
    assert token[start..i + 1] == token[start..i] + [token[i]];
  }

  lemma ScanCloses(token: string, parts: seq<string>, start: nat, i: nat)
    requires Scanned(token, parts, start, i, 0) && i < |token| && token[i] == ':'
    ensures Scanned(token, parts + [token[start..i]], i + 1, i + 1, 0)
  {
    hide Parts, Prefixed;
    PartsStep(token[start..i], token[i..], 0);
    assert token[i..][1..] == token[i + 1..];
    PartsStart(token[i + 1..], 0);
    assert token[i + 1..i + 1] == "";
  }

  lemma ScanEnds(token: string, parts: seq<string>, start: nat, depth: int)
    requires Scanned(token, parts, start, |token|, depth)
    ensures Parts(token, 0) == parts + [token[start..]]
  {
    hide Parts, Prefixed;
    assert token[|token|..] == "" && token[start..|token|] == token[start..];
    PartsEnd(token[start..], depth);
  }

  /** split: colons inside brackets stay. */
  method Split(token: string) returns (r: Token)
    ensures r == SplitOf(token)
  {
    hide Parts, Prefixed, Scanned;
    var parts: seq<string> := [];
    var depth := 0;
    var start := 0;
    ScanBegins(token);
    for i := 0 to |token|
      invariant start <= i
      invariant Scanned(token, parts, start, i, depth)
    {
      var c := token[i];
      if c == ':' && depth == 0 {
        ScanCloses(token, parts, start, i);
      } else {
        ScanExtends(token, parts, start, i, depth);
      }
      if c == '[' || c == '(' {
        depth := depth + 1;
      } else if c == ']' || c == ')' {
        depth := depth - 1;
      } else if c == ':' && depth == 0 {
        parts := parts + [token[start..i]];
        start := i + 1;
      }
    }
    ScanEnds(token, parts, start, depth);
    parts := parts + [token[start..]];
    return Token(parts[..|parts| - 1], parts[|parts| - 1]);
  }

  lemma ScanBegins(token: string)
    ensures Scanned(token, [], 0, 0, 0)
  {
    hide Parts, Prefixed;
    PartsStart(token, 0);
    assert token[0..] == token && token[0..0] == "";
  }

  function Join(ps: seq<string>): string
    requires ps != []
  {
    if |ps| == 1 then ps[0] else ps[0] + ":" + Join(ps[1..])
  }

  // ---------- The rules ----------

  datatype Tail =
    | Nothing       // the utility ends here
    | Value         // -value
    | Optional      // nothing or -value

  /** One row of RULES: its two physical forms and the logical ones that stand for them. */
  datatype Rule = Rule(left: string, start: string, right: string, end: string, tail: Tail) {
    predicate TailOk(rest: string) {
      || (rest == "" && !tail.Value?)
      || (|rest| >= 2 && rest[0] == '-' && !tail.Nothing?)
    }

    function Apply(core: string): Option<string> {
      if left <= core && TailOk(core[|left|..]) then Some(start + core[|left|..])
      else if right <= core && TailOk(core[|right|..]) then Some(end + core[|right|..])
      else None
    }
  }

  const RULES: seq<Rule> := [
    Rule("ml", "ms", "mr", "me", Value),
    Rule("pl", "ps", "pr", "pe", Value),
    Rule("scroll-ml", "scroll-ms", "scroll-mr", "scroll-me", Value),
    Rule("scroll-pl", "scroll-ps", "scroll-pr", "scroll-pe", Value),
    Rule("left", "inset-s", "right", "inset-e", Value),
    Rule("text-left", "text-start", "text-right", "text-end", Nothing),
    Rule("rounded-l", "rounded-s", "rounded-r", "rounded-e", Optional),
    Rule("rounded-tl", "rounded-ss", "rounded-tr", "rounded-se", Optional),
    Rule("rounded-bl", "rounded-es", "rounded-br", "rounded-ee", Optional),
    Rule("border-l", "border-s", "border-r", "border-e", Optional),
    Rule("slide-in-from-left", "slide-in-from-start", "slide-in-from-right", "slide-in-from-end", Optional),
    Rule("slide-out-to-left", "slide-out-to-start", "slide-out-to-right", "slide-out-to-end", Optional),
    Rule("float-left", "float-start", "float-right", "float-end", Nothing),
    Rule("clear-left", "clear-start", "clear-right", "clear-end", Nothing)
  ]

  /** The first rule that matches. */
  function FirstMatch(core: string, rules: seq<Rule>): Option<string> {
    if rules == [] then None
    else if rules[0].Apply(core).Some? then rules[0].Apply(core)
    else FirstMatch(core, rules[1..])
  }

  // ---------- One token ----------

  datatype Signed = Signed(pre: string, core: string, post: string)

  /** The leading ! and - of a utility. */
  function PreOf(u: string): (pre: string)
    ensures pre <= u
  {
    if |u| >= 2 && u[0] == '!' && u[1] == '-' then "!-"
    else if u != "" && u[0] == '!' then "!"
    else if u != "" && u[0] == '-' then "-"
    else ""
  }

  /** sign: a leading ! and -, and a trailing !. */
  function SignOf(utility: string): Signed {
    var pre := PreOf(utility);
    var w := utility[|pre|..];
    if w != "" && w[|w| - 1] == '!' then Signed(pre, w[..|w| - 1], "!") else Signed(pre, w, "")
  }

  predicate PhysicalContext(variants: seq<string>) {
    exists i :: 0 <= i < |variants| && ("data-[side=" <= variants[i] || Includes(variants[i], "vaul-drawer-direction"))
  }

  function Logical(token: string): string {
    var t := SplitOf(token);
    if PhysicalContext(t.variants) then token
    else
      var s := SignOf(t.utility);
      match FirstMatch(s.core, RULES)
      case Some(core) => Join(t.variants + [s.pre + core + s.post])
      case None => token
  }

  const TRANSLATE := "translate-x-"

  /** [-x] */
  predicate NegativeLiteral(value: string) {
    && |value| >= 4
    && value[0] == '[' && value[1] == '-' && value[|value| - 1] == ']'
    && forall i :: 2 <= i < |value| - 1 ==> value[i] != ']'
  }

  /** The mirrored utility: a negative literal loses its sign, anything else changes the sign
  before it. */
  function Flipped(s: Signed, value: string): string {
    var negative := s.pre != "" && s.pre[|s.pre| - 1] == '-';
    if NegativeLiteral(value) then (if negative then "-" else "") + TRANSLATE + "[" + value[2..]
    else (if negative then "" else "-") + TRANSLATE + value
  }

  /** The mirrored rtl: twin of a non-zero translate-x. */
  function MirroredTranslate(token: string): Option<string> {
    var t := SplitOf(token);
    if PhysicalContext(t.variants) || "rtl" in t.variants || "ltr" in t.variants then None
    else
      var s := SignOf(t.utility);
      if !(TRANSLATE <= s.core) || s.core == TRANSLATE || s.core == TRANSLATE + "0" then None
      else
        var bang := if s.pre != "" && s.pre[0] == '!' then "!" else "";
        Some(Join(["rtl"] + t.variants + [bang + Flipped(s, s.core[|TRANSLATE|..]) + s.post]))
  }

  // ---------- One class string ----------

  /** /(^|:)rtl:.*translate-x/ */
  predicate HasRtlTranslate(token: string) {
    exists i :: 0 <= i <= |token| && (i == 0 || token[i - 1] == ':') && "rtl:" <= token[i..]
      && Includes(token[i..][4..], "translate-x")
  }

  function LogicalPiece(p: string): string {
    if Blank(p) then p else Logical(p)
  }

  function LogicalPieces(ps: seq<string>): (ts: seq<string>)
    ensures |ts| == |ps| && forall i :: 0 <= i < |ps| ==> ts[i] == LogicalPiece(ps[i])
  {
    seq(|ps|, i requires 0 <= i < |ps| => LogicalPiece(ps[i]))
  }

  predicate AnyRtlTranslate(ts: seq<string>) {
    exists i :: 0 <= i < |ts| && HasRtlTranslate(ts[i])
  }

  /** A piece and, when it needs one, its twin after a space. */
  function WithTwin(t: string, present: set<string>): seq<string> {
    if Blank(t) then [t]
    else
      match MirroredTranslate(t)
      case Some(twin) => if twin !in present then [t, " ", twin] else [t]
      case None => [t]
  }

  function WithTwins(ts: seq<string>, present: set<string>): seq<string> {
    if ts == [] then [] else WithTwins(ts[..|ts| - 1], present) + WithTwin(ts[|ts| - 1], present)
  }

  /** The pieces of the rewritten class string. */
  function Rewritten(text: string): seq<string> {
    var ts := LogicalPieces(Pieces(text));
    if AnyRtlTranslate(ts) then ts else WithTwins(ts, set t | t in ts)
  }

  lemma WithTwinsStep(ts: seq<string>, i: nat, present: set<string>)
    requires i <= |ts|
    ensures WithTwins(ts[..0], present) == []
    ensures i < |ts| ==> WithTwins(ts[..i + 1], present) == WithTwins(ts[..i], present) + WithTwin(ts[i], present)
  {
    hide WithTwin;
    if i < |ts| {
      assert ts[..i + 1][..i] == ts[..i];
    }
  }

  method RewriteClasses(text: string) returns (r: string)
    ensures r == Concat(Rewritten(text))
  {
    hide MirroredTranslate, Logical, Pieces, WithTwins, AnyRtlTranslate, Blank;
    var tokens := LogicalPieces(Pieces(text));
    if AnyRtlTranslate(tokens) {
      return Concat(tokens);
    }
    var present := set t | t in tokens;
    var out: seq<string> := [];
    WithTwinsStep(tokens, |tokens|, present);
    for i := 0 to |tokens|
      invariant out == WithTwins(tokens[..i], present)
    {
      WithTwinsStep(tokens, i, present);
      ghost var before := out;
      out := out + [tokens[i]];
      if !Blank(tokens[i]) {
        var twin := MirroredTranslate(tokens[i]);
        if twin.Some? && twin.value !in present {
          out := out + [" ", twin.value];
        }
      }
      assert out == before + WithTwin(tokens[i], present);
    }
    assert tokens[..|tokens|] == tokens;
    return Concat(out);
  }
}
