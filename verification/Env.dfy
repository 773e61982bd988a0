/** The KEY=value lines of apps/console/src/lib/env.ts: the parser, the printer, and exactly
which lists of variables they carry over unchanged. */
module Env {
  import opened JsText
  import opened Wrappers

  datatype SecretRef = SecretRef(name: string, key: string)

  datatype EnvVar = EnvVar(name: string, value: Option<string>, secret: Option<SecretRef>)

  datatype LineError = InvalidName(line: nat, name: string) | SetTwice(line: nat, name: string)

  // ---------- Shapes ----------

  predicate Lower(c: char) {
    'a' <= c <= 'z'
  }

  predicate Letter(c: char) {
    Lower(c) || 'A' <= c <= 'Z'
  }

  predicate Digit(c: char) {
    '0' <= c <= '9'
  }

  /** ^[A-Za-z_][A-Za-z0-9_]*$ */
  predicate ValidName(s: string) {
    && s != "" && (Letter(s[0]) || s[0] == '_')
    && forall i :: 0 <= i < |s| ==> Letter(s[i]) || Digit(s[i]) || s[i] == '_'
  }

  predicate LowerOrDigit(c: char) {
    Lower(c) || Digit(c)
  }

  /** [a-z0-9]([-a-z0-9]*[a-z0-9])? */
  predicate SecretName(s: string) {
    && s != "" && LowerOrDigit(s[0]) && LowerOrDigit(s[|s| - 1])
    && forall i :: 0 <= i < |s| ==> LowerOrDigit(s[i]) || s[i] == '-'
  }

  /** [-._a-zA-Z0-9]+ */
  predicate SecretKey(s: string) {
    s != "" && forall i :: 0 <= i < |s| ==> Letter(s[i]) || Digit(s[i]) || s[i] == '-' || s[i] == '.' || s[i] == '_'
  }

  function IndexOf(s: string, c: char): (i: nat)
    ensures i <= |s| && (i < |s| ==> s[i] == c)
    ensures forall k :: 0 <= k < i ==> s[k] != c
  {
    if s == "" || s[0] == c then 0 else 1 + IndexOf(s[1..], c)
  }

  function Reference(r: SecretRef): string {
    "@" + r.name + "/" + r.key
  }

  /** The secret a value refers to: @name/key. Neither part has a slash. */
  function SecretOf(value: string): (r: Option<SecretRef>)
    ensures r.Some? ==> SecretName(r.value.name) && SecretKey(r.value.key) && value == Reference(r.value)
  {
    if value == "" || value[0] != '@' then None
    else
      var slash := IndexOf(value, '/');
      if slash == |value| then None
      else if SecretName(value[1..slash]) && SecretKey(value[slash + 1..]) then
        Some(SecretRef(value[1..slash], value[slash + 1..]))
      else None
  }

  // ---------- Parsing ----------

  /** text.split('\n') */
  function Lines(text: string): (ls: seq<string>)
    ensures ls != []
    decreases |text|
  {
    var i := IndexOf(text, '\n');
    if i == |text| then [text] else [text[..i]] + Lines(text[i + 1..])
  }

  datatype Line = Ignored | Setting(name: string, value: string)

  /** What a line says before its name is looked at. */
  function ReadLine(raw: string): Line {
    var line := Trim(raw);
    if line == "" || line[0] == '#' then Ignored
    else
      var eq := IndexOf(line, '=');
      if eq == |line| then Setting(line, "") else Setting(Trim(line[..eq]), line[eq + 1..])
  }

  function VarOf(name: string, value: string): EnvVar {
    var r := SecretOf(value);
    if r.Some? then EnvVar(name, None, r) else EnvVar(name, Some(value), None)
  }

  datatype Parsed = Parsed(vars: seq<EnvVar>, errors: seq<LineError>)

  predicate Names(vars: seq<EnvVar>, name: string) {
    exists i :: 0 <= i < |vars| && vars[i].name == name
  }

  /** One more line, the n-th. */
  function AddLine(before: Parsed, raw: string, n: nat): Parsed {
    match ReadLine(raw)
    case Ignored => before
    case Setting(name, value) =>
      if !ValidName(name) then before.(errors := before.errors + [InvalidName(n, name)])
      else if Names(before.vars, name) then before.(errors := before.errors + [SetTwice(n, name)])
      else before.(vars := before.vars + [VarOf(name, value)])
  }

  function ParseLines(lines: seq<string>): Parsed {
    if lines == [] then Parsed([], [])
    else AddLine(ParseLines(lines[..|lines| - 1]), lines[|lines| - 1], |lines|)
  }

  function Parse(text: string): Parsed {
    ParseLines(Lines(text))
  }

  method ParseEnvLines(text: string) returns (vars: seq<EnvVar>, errors: seq<LineError>)
    ensures Parsed(vars, errors) == Parse(text)
  {
    vars, errors := [], [];
    var seen: set<string> := {};
    var lines := Lines(text);
    for index := 0 to |lines|
      invariant Parsed(vars, errors) == ParseLines(lines[..index])
      invariant forall name :: name in seen <==> Names(vars, name)
    {
      assert lines[..index + 1][..index] == lines[..index];
      ghost var before := vars;
      match ReadLine(lines[index]) {
        case Ignored =>
        case Setting(name, value) =>
          if !ValidName(name) {
            errors := errors + [InvalidName(index + 1, name)];
          } else if name in seen {
            errors := errors + [SetTwice(index + 1, name)];
          } else {
            seen := seen + {name};
            vars := vars + [VarOf(name, value)];
            NamesSnoc(before, VarOf(name, value));
          }
      }
    }
    assert lines[..|lines|] == lines;
  }

  lemma NamesSnoc(vars: seq<EnvVar>, v: EnvVar)
    ensures forall name :: Names(vars + [v], name) <==> Names(vars, name) || name == v.name
  {
    forall name ensures Names(vars + [v], name) <==> Names(vars, name) || name == v.name {
      var all := vars + [v];
      assert all[|vars|] == v;
      if Names(vars, name) {
        var i :| 0 <= i < |vars| && vars[i].name == name;
        assert all[i].name == name;
      }
    }
  }

  // ---------- Printing ----------

  function FormatVar(v: EnvVar): string {
    if v.secret.Some? then v.name + "=" + Reference(v.secret.value)
    else v.name + "=" + (if v.value.Some? then v.value.value else "")
  }

  function JoinLines(lines: seq<string>): string {
    if lines == [] then ""
    else if |lines| == 1 then lines[0]
    else lines[0] + "\n" + JoinLines(lines[1..])
  }

  function FormatAll(vars: seq<EnvVar>): (ls: seq<string>)
    ensures |ls| == |vars| && forall i :: 0 <= i < |vars| ==> ls[i] == FormatVar(vars[i])
  {
    seq(|vars|, i requires 0 <= i < |vars| => FormatVar(vars[i]))
  }

  /** formatEnvLines */
  function Format(vars: seq<EnvVar>): string {
    JoinLines(FormatAll(vars))
  }

  // ---------- What survives ----------

  predicate NoNewline(s: string) {
    forall i :: 0 <= i < |s| ==> s[i] != '\n'
  }

  /** A value without a newline, without white space at its end and not shaped as a reference. */
  predicate PlainValue(s: string) {
    NoNewline(s) && (s == "" || !IsSpace(s[|s| - 1])) && SecretOf(s) == None
  }

  /** A variable a line can carry. */
  predicate Carried(v: EnvVar) {
    && ValidName(v.name)
    && if v.secret.Some?
       then v.value.None? && SecretName(v.secret.value.name) && SecretKey(v.secret.value.key)
       else v.value.Some? && PlainValue(v.value.value)
  }

  predicate AllCarried(vars: seq<EnvVar>) {
    && (forall i :: 0 <= i < |vars| ==> Carried(vars[i]))
    && (forall i, j :: 0 <= i < j < |vars| ==> vars[i].name != vars[j].name)
  }

  // ---------- One line ----------

  lemma {:induction false} IndexOfAt(s: string, i: nat, c: char)
    requires i < |s| && s[i] == c && forall k :: 0 <= k < i ==> s[k] != c
    ensures IndexOf(s, c) == i
  {
    if i > 0 {
      IndexOfAt(s[1..], i - 1, c);
    }
  }

  /** A well-formed reference is read back. */
  lemma ReferenceReads(r: SecretRef)
    requires SecretName(r.name) && SecretKey(r.key)
    ensures SecretOf(Reference(r)) == Some(r)
  {
    var s := Reference(r);
    var slash := 1 + |r.name|;
    IndexOfAt(s, slash, '/');
    assert s[1..slash] == r.name && s[slash + 1..] == r.key;
  }

  lemma ReferencePlain(r: SecretRef)
    requires SecretName(r.name) && SecretKey(r.key)
    ensures var s := Reference(r); NoNewline(s) && s != "" && !IsSpace(s[|s| - 1])
  {
    var s := Reference(r);
    assert s[|s| - 1] == r.key[|r.key| - 1];
    forall i | 0 <= i < |s| ensures s[i] != '\n' {
      assert s[i] == '@' || s[i] == '/' || s[i] in r.name || s[i] in r.key;
    }
  }

  lemma SettingReads(name: string, value: string)
    requires ValidName(name) && NoNewline(value) && (value == "" || !IsSpace(value[|value| - 1]))
    ensures ReadLine(name + "=" + value) == Setting(name, value)
    ensures NoNewline(name + "=" + value)
  {
    hide Trim, IndexOf, SecretOf;
    var line := name + "=" + value;
    assert line[0] == name[0] && !IsSpace(name[0]) && name[0] != '#';
    assert line[|line| - 1] == if value == "" then '=' else value[|value| - 1];
    TrimLaw(line);
    IndexOfAt(line, |name|, '=');
    assert line[..|name|] == name && line[|name| + 1..] == value;
    assert !IsSpace(name[|name| - 1]);
    TrimLaw(name);
  }

  /** A variable a line can carry is read back from its line. */
  lemma CarriedReads(v: EnvVar)
    requires Carried(v)
    ensures NoNewline(FormatVar(v))
    ensures exists value :: ReadLine(FormatVar(v)) == Setting(v.name, value) && VarOf(v.name, value) == v
  {
    hide ReadLine, SecretOf, Reference, SecretName, SecretKey;
    var value := if v.secret.Some? then Reference(v.secret.value) else v.value.value;
    if v.secret.Some? {
      ReferenceReads(v.secret.value);
      ReferencePlain(v.secret.value);
    }
    SettingReads(v.name, value);
    assert ReadLine(FormatVar(v)) == Setting(v.name, value) && VarOf(v.name, value) == v;
  }

  /** What is read from a line without a newline can be carried by one. */
  lemma ReadIsCarried(raw: string)
    requires NoNewline(raw) && ReadLine(raw).Setting? && ValidName(ReadLine(raw).name)
    ensures Carried(VarOf(ReadLine(raw).name, ReadLine(raw).value))
  {
    hide Trim, SecretName, SecretKey, ValidName;
    TrimLaw(raw);
    var line := Trim(raw);
    var value := ReadLine(raw).value;
    forall i | 0 <= i < |value| ensures value[i] != '\n' {
      assert value[i] in line;
    }
    if value != "" {
      assert value[|value| - 1] == line[|line| - 1];
    }
  }

  // ---------- Lines ----------

  lemma {:induction false} LinesNoNewline(text: string)
    ensures forall i :: 0 <= i < |Lines(text)| ==> NoNewline(Lines(text)[i])
    decreases |text|
  {
    var i := IndexOf(text, '\n');
    if i < |text| {
      LinesNoNewline(text[i + 1..]);
    }
  }

  /** Splitting undoes joining. */
  lemma {:induction false} LinesOfJoin(ls: seq<string>)
    requires ls != [] && forall i :: 0 <= i < |ls| ==> NoNewline(ls[i])
    ensures Lines(JoinLines(ls)) == ls
  {
    if |ls| == 1 {
      assert ls == [ls[0]];
    } else {
      hide Lines;
      LinesOfJoin(ls[1..]);
      FirstLine(ls[0], JoinLines(ls[1..]));
      assert ls == [ls[0]] + ls[1..];
    }
  }

  lemma FirstLine(line: string, rest: string)
    requires NoNewline(line)
    ensures Lines(line + "\n" + rest) == [line] + Lines(rest)
  {
    hide IndexOf;
    var text := line + "\n" + rest;
    IndexOfAt(text, |line|, '\n');
    assert text[..|line|] == line && text[|line| + 1..] == rest;
  }

  // ---------- Whole texts ----------

  /** Whatever the text, the parsed variables can all be carried, and their names differ. */
  lemma {:induction false} ParsedIsCarried(lines: seq<string>)
    requires forall i :: 0 <= i < |lines| ==> NoNewline(lines[i])
    ensures AllCarried(ParseLines(lines).vars)
  {
    hide Carried, ReadLine, ValidName, VarOf, NoNewline;
    if lines != [] {
      var n := |lines| - 1;
      ParsedIsCarried(lines[..n]);
      var before := ParseLines(lines[..n]);
      var line := ReadLine(lines[n]);
      if line.Setting? && ValidName(line.name) && !Names(before.vars, line.name) {
        ReadIsCarried(lines[n]);
        VarName(line.name, line.value);
      }
    }
  }

  lemma VarName(name: string, value: string)
    ensures VarOf(name, value).name == name
  {
    hide SecretOf;
  }

  lemma {:induction false} FormattedParses(vars: seq<EnvVar>)
    requires AllCarried(vars)
    ensures ParseLines(FormatAll(vars)) == Parsed(vars, [])
  {
    hide Carried, ReadLine, VarOf, FormatVar, ValidName;
    if vars != [] {
      var n := |vars| - 1;
      var ls := FormatAll(vars);
      FormattedParses(vars[..n]);
      assert ls[..n] == FormatAll(vars[..n]);
      CarriedReads(vars[n]);
      CarriedName(vars[n]);
      assert vars == vars[..n] + [vars[n]];
      assert !Names(vars[..n], vars[n].name);
    }
  }

  lemma CarriedName(v: EnvVar)
    requires Carried(v)
    ensures ValidName(v.name)
  {
  }

  lemma EmptyFormat()
    ensures Parse(Format([])) == Parsed([], [])
  {
    assert FormatAll([]) == [];
    assert IndexOf("", '\n') == 0;
    assert Lines("") == [""];
    assert ReadLine("") == Ignored;
    assert [""][..0] == [];
  }

  /** The printer undoes the parser and the parser the printer, on exactly these lists: names
  valid and distinct, references in range, other values without a newline, without white
  space at the end and not shaped as a reference. */
  lemma ParseOfFormat(vars: seq<EnvVar>)
    ensures Parse(Format(vars)) == Parsed(vars, []) <==> AllCarried(vars)
  {
    hide ParseLines, AllCarried, Lines, NoNewline, FormatVar;
    if vars == [] {
      EmptyFormat();
    } else if AllCarried(vars) {
      CarriedLines(vars);
      LinesOfJoin(FormatAll(vars));
      FormattedParses(vars);
    }
    if Parse(Format(vars)) == Parsed(vars, []) {
      LinesNoNewline(Format(vars));
      ParsedIsCarried(Lines(Format(vars)));
    }
  }

  lemma CarriedLines(vars: seq<EnvVar>)
    requires AllCarried(vars)
    ensures forall i :: 0 <= i < |vars| ==> NoNewline(FormatAll(vars)[i])
  {
    hide Carried, NoNewline, FormatVar;
    forall i | 0 <= i < |vars| ensures NoNewline(FormatAll(vars)[i]) {
      CarriedReads(vars[i]);
    }
  }

  /** For every text: parsing, printing the variables and parsing again gives the same
  variables and no errors. */
  lemma ParseFormatParse(text: string)
    ensures Parse(Format(Parse(text).vars)) == Parsed(Parse(text).vars, [])
  {
    hide ParseLines, AllCarried, Lines, NoNewline;
    LinesNoNewline(text);
    ParsedIsCarried(Lines(text));
    ParseOfFormat(Parse(text).vars);
  }
}
