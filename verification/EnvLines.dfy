/** What becomes of every line that the parser of apps/console/src/lib/env.ts is given: it is a
comment, it sets a variable, or it is complained about. */
module EnvLines {
  import opened JsText
  import opened Wrappers
  import opened Env

  // ---------- One line ----------

  /** The line sets name to value, valid or not: without the space around it, it is no comment, and the
  name ends at the first =, or is all of it. */
  ghost predicate Sets(raw: string, name: string, value: string) {
    var line := Trim(raw);
    && line != "" && line[0] != '#'
    && (('=' !in line && name == line && value == "")
        || exists k :: 0 <= k < |line| && line[k] == '=' && '=' !in line[..k] && name == Trim(line[..k]) && value == line[k + 1..])
  }

  lemma SetsIsReadLine(raw: string, name: string, value: string)
    ensures Sets(raw, name, value) <==> ReadLine(raw) == Setting(name, value)
  {
    hide Trim;
    var line := Trim(raw);
    var eq := IndexOf(line, '=');
    assert '=' !in line[..eq];
    if eq < |line| {
      assert line[eq] == '=' && line[eq] in line;
      forall k | 0 <= k < |line| && line[k] == '=' && '=' !in line[..k] ensures k == eq {
        assert forall j | 0 <= j < k :: line[j] == line[..k][j];
        IndexOfAt(line, k, '=');
      }
    } else {
      assert line[..eq] == line;
    }
  }

  /** What the value is taken for: a reference, if it has the form of one, or itself. */
  ghost predicate IsVar(v: EnvVar, name: string, value: string) {
    || (exists r: SecretRef :: SecretName(r.name) && SecretKey(r.key) && value == Reference(r) && v == EnvVar(name, None, Some(r)))
    || (v == EnvVar(name, Some(value), None)
        && forall r: SecretRef :: SecretName(r.name) && SecretKey(r.key) ==> value != Reference(r))
  }

  lemma VarIsVar(name: string, value: string)
    ensures IsVar(VarOf(name, value), name, value)
  {
    hide SecretName, SecretKey, Reference, SecretOf;
    if SecretOf(value).None? {
      forall r: SecretRef | SecretName(r.name) && SecretKey(r.key) ensures value != Reference(r) {
        ReferenceReads(r);
      }
    }
  }

  /** Splitting takes out the newlines and nothing else. */
  lemma {:induction false} LinesAreText(text: string)
    ensures JoinLines(Lines(text)) == text
    ensures forall i :: 0 <= i < |Lines(text)| ==> NoNewline(Lines(text)[i])
    decreases |text|
  {
    LinesNoNewline(text);
    var i := IndexOf(text, '\n');
    if i < |text| {
      LinesAreText(text[i + 1..]);
      var rest := Lines(text[i + 1..]);
      assert ([text[..i]] + rest)[1..] == rest;
      assert text == text[..i] + "\n" + text[i + 1..];
    }
  }

  // ---------- All lines ----------

  /** The k-th line is the first that sets this variable. */
  ghost predicate First(lines: seq<string>, k: nat, name: string, value: string) {
    && k < |lines| && Sets(lines[k], name, value) && ValidName(name)
    && forall j, x :: 0 <= j < k ==> !Sets(lines[j], name, x)
  }

  /** The k-th line sets a name that is none, or that a line before it set. */
  ghost predicate Complaint(lines: seq<string>, k: nat, e: LineError) {
    && k < |lines|
    && match e
       case InvalidName(line, name) => line == k + 1 && !ValidName(name) && exists x :: Sets(lines[k], name, x)
       case SetTwice(line, name) =>
         line == k + 1 && ValidName(name) && (exists x :: Sets(lines[k], name, x))
         && exists j, x :: 0 <= j < k && Sets(lines[j], name, x)
  }

  ghost predicate FirstFor(lines: seq<string>, k: nat, v: EnvVar) {
    exists x :: First(lines, k, v.name, x) && IsVar(v, v.name, x)
  }

  ghost predicate NoneFirst(lines: seq<string>, k: nat) {
    forall name, x :: !First(lines, k, name, x)
  }

  ghost predicate NoComplaint(lines: seq<string>, k: nat) {
    forall e :: !Complaint(lines, k, e)
  }

  /** The variables are those of the lines ks, which are exactly the first ones to set theirs. */
  ghost predicate AllFirst(lines: seq<string>, vars: seq<EnvVar>, ks: seq<nat>) {
    && |ks| == |vars| && (forall i, j :: 0 <= i < j < |ks| ==> ks[i] < ks[j])
    && (forall i :: 0 <= i < |ks| ==> FirstFor(lines, ks[i], vars[i]))
    && forall k: nat, name, x :: First(lines, k, name, x) ==> k in ks
  }

  /** The errors are those of the lines ks, which are exactly the ones to complain about. */
  ghost predicate AllComplaints(lines: seq<string>, errors: seq<LineError>, ks: seq<nat>) {
    && |ks| == |errors| && (forall i, j :: 0 <= i < j < |ks| ==> ks[i] < ks[j])
    && (forall i :: 0 <= i < |ks| ==> Complaint(lines, ks[i], errors[i]))
    && forall k: nat, e :: Complaint(lines, k, e) ==> k in ks
  }

  ghost predicate SetsName(raw: string, name: string) {
    exists x :: Sets(raw, name, x)
  }

  ghost predicate SetBefore(lines: seq<string>, name: string) {
    exists j, x :: 0 <= j < |lines| && Sets(lines[j], name, x)
  }

  lemma FirstStays(lines: seq<string>, k: nat, name: string, value: string)
    requires lines != [] && k < |lines| - 1
    ensures First(lines, k, name, value) <==> First(lines[..|lines| - 1], k, name, value)
  {
    hide Sets, ValidName;
    var before := lines[..|lines| - 1];
    assert forall j | 0 <= j <= k :: before[j] == lines[j];
  }

  lemma ComplaintStays(lines: seq<string>, k: nat, e: LineError)
    requires lines != [] && k < |lines| - 1
    ensures Complaint(lines, k, e) <==> Complaint(lines[..|lines| - 1], k, e)
  {
    hide Sets, ValidName;
    var before := lines[..|lines| - 1];
    assert forall j | 0 <= j <= k :: before[j] == lines[j];
  }

  lemma SetsOne(raw: string, name: string, value: string, name': string, value': string)
    requires Sets(raw, name, value) && Sets(raw, name', value')
    ensures name == name' && value == value'
  {
    hide Sets, ReadLine;
    SetsIsReadLine(raw, name, value);
    SetsIsReadLine(raw, name', value');
  }

  lemma SetNowOrBefore(lines: seq<string>, name: string)
    requires lines != []
    ensures SetBefore(lines, name) <==> SetBefore(lines[..|lines| - 1], name) || SetsName(lines[|lines| - 1], name)
  {
    hide Sets;
    var n := |lines| - 1;
    if SetBefore(lines[..n], name) {
      var j, x :| 0 <= j < n && Sets(lines[..n][j], name, x);
      assert Sets(lines[j], name, x);
    }
    if SetBefore(lines, name) {
      var j, x :| 0 <= j < |lines| && Sets(lines[j], name, x);
      assert j < n ==> Sets(lines[..n][j], name, x);
    }
  }

  /** Lines that set no variable add none. */
  lemma NoNewFirst(lines: seq<string>, vars: seq<EnvVar>, ks: seq<nat>)
    requires lines != [] && AllFirst(lines[..|lines| - 1], vars, ks)
    requires NoneFirst(lines, |lines| - 1)
    ensures AllFirst(lines, vars, ks)
  {
    hide First, IsVar;
    FirstsStay(lines);
    forall i | 0 <= i < |ks| ensures FirstFor(lines, ks[i], vars[i]) {
      var x :| First(lines[..|lines| - 1], ks[i], vars[i].name, x) && IsVar(vars[i], vars[i].name, x);
      FirstInRange(lines[..|lines| - 1], ks[i], vars[i].name, x);
    }
    forall k: nat, name, x | First(lines, k, name, x) ensures k in ks {
      FirstInRange(lines, k, name, x);
    }
  }

  lemma FirstInRange(lines: seq<string>, k: nat, name: string, x: string)
    requires First(lines, k, name, x)
    ensures k < |lines|
  {
  }

  lemma FirstsStay(lines: seq<string>)
    requires lines != []
    ensures forall k: nat, name, x | k < |lines| - 1 :: First(lines, k, name, x) <==> First(lines[..|lines| - 1], k, name, x)
  {
    hide First;
    forall k: nat, name, x | k < |lines| - 1 ensures First(lines, k, name, x) <==> First(lines[..|lines| - 1], k, name, x) {
      FirstStays(lines, k, name, x);
    }
  }

  lemma NewFirst(lines: seq<string>, vars: seq<EnvVar>, ks: seq<nat>, v: EnvVar, value: string)
    requires lines != [] && AllFirst(lines[..|lines| - 1], vars, ks)
    requires First(lines, |lines| - 1, v.name, value) && IsVar(v, v.name, value)
    ensures AllFirst(lines, vars + [v], ks + [|lines| - 1])
  {
    hide First, IsVar;
    var n := |lines| - 1;
    var all, at := vars + [v], ks + [n];
    FirstsStay(lines);
    forall i | 0 <= i < |ks|
      ensures ks[i] < n && FirstFor(lines, ks[i], vars[i])
    {
      var x :| First(lines[..n], ks[i], vars[i].name, x) && IsVar(vars[i], vars[i].name, x);
      FirstInRange(lines[..n], ks[i], vars[i].name, x);
    }
    forall k: nat, name, x | First(lines, k, name, x) ensures k in at {
      FirstInRange(lines, k, name, x);
      assert at[|ks|] == n;
      if k < n {
        assert k in ks;
      }
    }
  }

  lemma ComplaintInRange(lines: seq<string>, k: nat, e: LineError)
    requires Complaint(lines, k, e)
    ensures k < |lines|
  {
  }

  lemma ComplaintsStay(lines: seq<string>)
    requires lines != []
    ensures forall k: nat, e | k < |lines| - 1 :: Complaint(lines, k, e) <==> Complaint(lines[..|lines| - 1], k, e)
  {
    hide Complaint;
    forall k: nat, e | k < |lines| - 1 ensures Complaint(lines, k, e) <==> Complaint(lines[..|lines| - 1], k, e) {
      ComplaintStays(lines, k, e);
    }
  }

  lemma NoNewComplaint(lines: seq<string>, errors: seq<LineError>, ks: seq<nat>)
    requires lines != [] && AllComplaints(lines[..|lines| - 1], errors, ks)
    requires NoComplaint(lines, |lines| - 1)
    ensures AllComplaints(lines, errors, ks)
  {
    hide Complaint;
    ComplaintsStay(lines);
    forall i | 0 <= i < |ks| ensures Complaint(lines, ks[i], errors[i]) {
      ComplaintInRange(lines[..|lines| - 1], ks[i], errors[i]);
    }
    forall k: nat, e | Complaint(lines, k, e) ensures k in ks {
      ComplaintInRange(lines, k, e);
    }
  }

  lemma NewComplaint(lines: seq<string>, errors: seq<LineError>, ks: seq<nat>, e: LineError)
    requires lines != [] && AllComplaints(lines[..|lines| - 1], errors, ks) && Complaint(lines, |lines| - 1, e)
    ensures AllComplaints(lines, errors + [e], ks + [|lines| - 1])
  {
    hide Complaint;
    var n := |lines| - 1;
    var at := ks + [n];
    ComplaintsStay(lines);
    forall i | 0 <= i < |ks| ensures ks[i] < n && Complaint(lines, ks[i], errors[i]) {
      ComplaintInRange(lines[..n], ks[i], errors[i]);
    }
    forall k: nat, f | Complaint(lines, k, f) ensures k in at {
      ComplaintInRange(lines, k, f);
      assert at[|ks|] == n;
      if k < n {
        assert k in ks;
      }
    }
  }

  /** What the last line does, by what it sets. */
  lemma LastLine(lines: seq<string>)
    requires lines != []
    ensures var n := |lines| - 1; var before := lines[..n];
      match ReadLine(lines[n])
      case Ignored => NoComplaint(lines, n) && NoneFirst(lines, n)
      case Setting(name, value) =>
        if !ValidName(name) then Complaint(lines, n, InvalidName(n + 1, name)) && NoneFirst(lines, n)
        else if SetBefore(before, name) then Complaint(lines, n, SetTwice(n + 1, name)) && NoneFirst(lines, n)
        else First(lines, n, name, value) && NoComplaint(lines, n)
  {
    hide Sets, ReadLine, ValidName;
    var n := |lines| - 1;
    var before := lines[..n];
    assert forall j | 0 <= j < n :: before[j] == lines[j];
    forall name, x ensures Sets(lines[n], name, x) <==> ReadLine(lines[n]) == Setting(name, x) {
      SetsIsReadLine(lines[n], name, x);
    }
    if ReadLine(lines[n]).Setting? {
      var name, value := ReadLine(lines[n]).name, ReadLine(lines[n]).value;
      assert Sets(lines[n], name, value);
      if SetBefore(before, name) {
        var j, x :| 0 <= j < |before| && Sets(before[j], name, x);
        assert Sets(lines[j], name, x);
      }
    }
  }

  /** For any lines: which variables there are, and which errors. */
  lemma {:induction false} LinesBecome(lines: seq<string>) returns (ks: seq<nat>, es: seq<nat>)
    ensures AllFirst(lines, ParseLines(lines).vars, ks)
    ensures AllComplaints(lines, ParseLines(lines).errors, es)
    ensures forall name :: Names(ParseLines(lines).vars, name) <==> ValidName(name) && SetBefore(lines, name)
    decreases |lines|
  {
    hide ReadLine, ValidName, First, Complaint, IsVar, Sets, Names, SetBefore, VarOf, NoneFirst, NoComplaint, FirstFor;
    if lines == [] {
      ks, es := [], [];
      NoLines();
    } else {
      var n := |lines| - 1;
      ks, es := LinesBecome(lines[..n]);
      var p := ParseLines(lines[..n]);
      LastLine(lines);
      LastNames(lines);
      match ReadLine(lines[n])
      case Ignored =>
        NoNewFirst(lines, p.vars, ks);
        NoNewComplaint(lines, p.errors, es);
      case Setting(name, value) =>
        if !ValidName(name) || SetBefore(lines[..n], name) {
          NoNewFirst(lines, p.vars, ks);
          var e := if !ValidName(name) then InvalidName(n + 1, name) else SetTwice(n + 1, name);
          NewComplaint(lines, p.errors, es, e);
          es := es + [n];
        } else {
          VarName(name, value);
          VarIsVar(name, value);
          NewFirst(lines, p.vars, ks, VarOf(name, value), value);
          NoNewComplaint(lines, p.errors, es);
          NamesSnoc(p.vars, VarOf(name, value));
          ks := ks + [n];
        }
    }
  }

  lemma NoLines()
    ensures AllFirst([], [], []) && AllComplaints([], [], [])
    ensures forall name :: !Names([], name) && !SetBefore([], name)
  {
  }

  /** The names set so far. */
  lemma LastNames(lines: seq<string>)
    requires lines != []
    ensures var n := |lines| - 1;
      forall name :: SetBefore(lines, name) <==>
        SetBefore(lines[..n], name) || (ReadLine(lines[n]).Setting? && ReadLine(lines[n]).name == name)
  {
    hide ReadLine, Sets, SetBefore;
    var n := |lines| - 1;
    forall name
      ensures SetBefore(lines, name) <==>
        SetBefore(lines[..n], name) || (ReadLine(lines[n]).Setting? && ReadLine(lines[n]).name == name)
    {
      SetNowOrBefore(lines, name);
      forall x ensures Sets(lines[n], name, x) <==> ReadLine(lines[n]) == Setting(name, x) {
        SetsIsReadLine(lines[n], name, x);
      }
      if ReadLine(lines[n]).Setting? {
        SetsIsReadLine(lines[n], ReadLine(lines[n]).name, ReadLine(lines[n]).value);
      }
    }
  }

  /** For any text: every line that sets a variable first gives that variable, every line with no valid
  name or a name set before gives its error, and there is nothing else, all in the order of the lines. */
  lemma EveryLine(text: string) returns (ks: seq<nat>, es: seq<nat>)
    ensures JoinLines(Lines(text)) == text
    ensures AllFirst(Lines(text), Parse(text).vars, ks)
    ensures AllComplaints(Lines(text), Parse(text).errors, es)
  {
    hide AllFirst, AllComplaints;
    LinesAreText(text);
    ks, es := LinesBecome(Lines(text));
  }
}
