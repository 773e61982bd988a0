/** The rewriter over a whole class string: a second run changes nothing. */
module RtlClasses {
  import opened JsText
  import opened Wrappers
  import opened Rtl
  import opened RtlLaw

  // ---------- Words and gaps ----------

  /** Words and gaps in turn, beginning with a word; only the first and the last piece may be
  an empty word. */
  predicate Alternating(ps: seq<string>) {
    && (forall i :: 0 <= i < |ps| && i % 2 == 0 ==> NoSpace(ps[i]))
    && (forall i :: 0 <= i < |ps| && i % 2 == 1 ==> Blank(ps[i]) && ps[i] != "")
    && (forall i :: 0 < i < |ps| - 1 ==> ps[i] != "")
  }

  lemma {:induction false} RunOfWord(w: string, rest: string, spaces: bool)
    requires forall i :: 0 <= i < |w| ==> IsSpace(w[i]) == spaces
    requires rest == "" || IsSpace(rest[0]) != spaces
    ensures RunLength(w + rest, spaces) == |w|
  {
    if w == "" {
      assert w + rest == rest;
    } else {
      assert (w + rest)[1..] == w[1..] + rest;
      RunOfWord(w[1..], rest, spaces);
    }
  }

  /** A word and a gap are cut off the front of a text. */
  lemma PiecesStep(w: string, g: string, rest: string)
    requires NoSpace(w) && Blank(g) && g != "" && (rest == "" || !IsSpace(rest[0]))
    ensures Pieces(w + (g + rest)) == [w, g] + Pieces(rest)
  {
    hide RunLength, Pieces;
    var text := w + (g + rest);
    RunOfWord(w, g + rest, false);
    RunOfWord(g, rest, true);
    Cut3(w, g, rest);
    PiecesUnfold(text, |w|, |g|);
  }

  lemma PiecesUnfold(text: string, n: nat, m: nat)
    requires n == RunLength(text, false) < |text| && m == RunLength(text[n..], true)
    ensures Pieces(text) == [text[..n], text[n..n + m]] + Pieces(text[n + m..])
  {
    hide RunLength;
  }

  lemma Cut3(a: string, b: string, c: string)
    ensures var t := a + (b + c);
      t[..|a|] == a && t[|a|..] == b + c && t[|a|..|a| + |b|] == b && t[|a| + |b|..] == c
  {
  }

  lemma PiecesOfWord(w: string)
    requires NoSpace(w)
    ensures Pieces(w) == [w]
  {
    RunOfWord(w, "", false);
    assert w + "" == w;
  }

  lemma PutTwo(w: string, g: string, ps: seq<string>)
    ensures Concat([w, g] + ps) == w + (g + Concat(ps))
  {
    assert ([w, g] + ps)[1..] == [g] + ps && ([g] + ps)[1..] == ps;
  }

  lemma PutOne(w: string)
    ensures Concat([w]) == w
  {
    assert [w][1..] == [];
    assert w + "" == w;
  }

  lemma AlternatingTwo(w: string, g: string, ps: seq<string>)
    requires Alternating(ps) && NoSpace(w) && Blank(g) && g != "" && (|ps| > 1 ==> ps[0] != "")
    ensures Alternating([w, g] + ps)
  {
    hide NoSpace, Blank;
    var r := [w, g] + ps;
    forall i | 0 <= i < |r|
      ensures i % 2 == 0 ==> NoSpace(r[i])
      ensures i % 2 == 1 ==> Blank(r[i]) && r[i] != ""
      ensures 0 < i < |r| - 1 ==> r[i] != ""
    {
      if i >= 2 {
        assert r[i] == ps[i - 2];
      }
    }
  }

  /** The pieces of a text alternate, end with a word and make up the text. */
  lemma {:induction false} PiecesLaw(text: string)
    ensures Alternating(Pieces(text)) && |Pieces(text)| % 2 == 1
    ensures Concat(Pieces(text)) == text
    ensures text != "" && !IsSpace(text[0]) ==> Pieces(text)[0] != ""
    ensures text == "" ==> |Pieces(text)| == 1
    decreases |text|
  {
    hide Alternating, Pieces;
    var n := RunLength(text, false);
    if n < |text| {
      var w, g, rest := FirstTwo(text);
      PiecesStep(w, g, rest);
      PiecesLaw(rest);
      AlternatingTwo(w, g, Pieces(rest));
      PutTwo(w, g, Pieces(rest));
    } else {
      PiecesOfWord(text);
      PutOne(text);
      OneWord(text);
    }
  }

  /** A text with a space is a word, a gap and a rest that begins with no space. */
  lemma FirstTwo(text: string) returns (w: string, g: string, rest: string)
    requires RunLength(text, false) < |text|
    ensures text == w + (g + rest) && NoSpace(w) && Blank(g) && g != "" && (rest == "" || !IsSpace(rest[0]))
    ensures !IsSpace(text[0]) ==> w != ""
  {
    hide RunLength;
    var n := RunLength(text, false);
    var u := text[n..];
    assert u[0] == text[n];
    var m := RunLength(u, true);
    w, g, rest := text[..n], u[..m], u[m..];
    assert text == w + u && u == g + rest;
    if m < |u| {
      assert rest[0] == u[m];
    }
  }

  lemma OneWord(w: string)
    requires NoSpace(w)
    ensures Alternating([w])
  {
  }

  lemma AlternatingRest(ps: seq<string>)
    requires Alternating(ps) && |ps| >= 3
    ensures Alternating(ps[2..]) && (|ps| > 3 ==> ps[2] != "")
    ensures NoSpace(ps[0]) && Blank(ps[1]) && ps[1] != "" && NoSpace(ps[2])
  {
    hide NoSpace, Blank;
    var r := ps[2..];
    forall i | 0 <= i < |r|
      ensures i % 2 == 0 ==> NoSpace(r[i])
      ensures i % 2 == 1 ==> Blank(r[i]) && r[i] != ""
      ensures 0 < i < |r| - 1 ==> r[i] != ""
    {
      assert r[i] == ps[i + 2];
    }
  }

  /** The text begins as its first piece, a word, does. */
  lemma ConcatStarts(ps: seq<string>)
    requires ps != [] && NoSpace(ps[0]) && (|ps| > 1 ==> ps[0] != "")
    ensures Concat(ps) == "" || !IsSpace(Concat(ps)[0])
  {
    if |ps| == 1 {
      assert ps == [ps[0]];
      PutOne(ps[0]);
    }
  }

  lemma PiecesOfTwo(w: string, g: string, ps: seq<string>)
    requires NoSpace(w) && Blank(g) && g != "" && ps != [] && NoSpace(ps[0]) && (|ps| > 1 ==> ps[0] != "")
    requires Pieces(Concat(ps)) == ps
    ensures Pieces(Concat([w, g] + ps)) == [w, g] + ps
  {
    hide Pieces, Concat, NoSpace, Blank;
    PutTwo(w, g, ps);
    ConcatStarts(ps);
    PiecesStep(w, g, Concat(ps));
  }

  lemma FirstIsWord(ps: seq<string>)
    requires Alternating(ps) && ps != []
    ensures NoSpace(ps[0])
  {
  }

  /** Cutting a text into pieces undoes putting alternating pieces together. */
  lemma {:induction false} PiecesOfConcat(ps: seq<string>)
    requires Alternating(ps) && |ps| % 2 == 1
    ensures Pieces(Concat(ps)) == ps
  {
    hide Alternating, Pieces, Concat, NoSpace, Blank;
    FirstIsWord(ps);
    if |ps| == 1 {
      PutOne(ps[0]);
      PiecesOfWord(ps[0]);
      assert ps == [ps[0]];
    } else {
      AlternatingRest(ps);
      PiecesOfConcat(ps[2..]);
      PiecesOfTwo(ps[0], ps[1], ps[2..]);
      assert ps == [ps[0], ps[1]] + ps[2..];
    }
  }

  // ---------- Logical pieces ----------

  lemma LogicalPieceIdempotent(p: string)
    ensures LogicalPiece(LogicalPiece(p)) == LogicalPiece(p)
  {
    hide Logical;
    LogicalIdempotent(p);
  }

  lemma LogicalPiecesAlternate(ps: seq<string>)
    requires Alternating(ps)
    ensures Alternating(LogicalPieces(ps))
  {
    hide Logical;
    var ts := LogicalPieces(ps);
    forall i | 0 <= i < |ps|
      ensures i % 2 == 0 ==> NoSpace(ts[i])
      ensures i % 2 == 1 ==> Blank(ts[i]) && ts[i] != ""
      ensures ps[i] != "" ==> ts[i] != ""
    {
      if i % 2 == 0 && ps[i] != "" {
        LogicalKeepsNoSpace(ps[i]);
      }
    }
  }

  // ---------- Twins among the pieces ----------

  /** Every word's twin is a word. */
  lemma WithTwinAlternates(t: string, present: set<string>)
    requires NoSpace(t)
    ensures var r := WithTwin(t, present);
      r == [t] || (|r| == 3 && r[0] == t && t != "" && r[1] == " " && NoSpace(r[2]) && r[2] != "")
  {
    hide MirroredTranslate;
    if MirroredTranslate(t).Some? {
      TwinKeepsNoSpace(t);
    }
  }

  lemma AlternatingPrefix(ts: seq<string>)
    requires Alternating(ts) && ts != []
    ensures var n := |ts| - 1;
      && Alternating(ts[..n])
      && (if n % 2 == 0 then NoSpace(ts[n]) else Blank(ts[n]) && ts[n] != "")
      && (n >= 2 ==> ts[n - 1] != "")
  {
    hide NoSpace, Blank;
  }

  /** Pieces that alternate as ts does, whose last piece is an empty word only if ts's is. */
  predicate Follows(ts: seq<string>, out: seq<string>) {
    && Alternating(out) && |out| % 2 == |ts| % 2 && (ts == [] <==> out == [])
    && (ts != [] && ts[|ts| - 1] != "" && out != [] ==> out[|out| - 1] != "")
    && (|ts| == 1 && ts[0] == "" ==> |out| == 1)
  }

  lemma FollowsStep(ts: seq<string>, out: seq<string>, more: seq<string>)
    requires ts != [] && Alternating(ts) && Follows(ts[..|ts| - 1], out)
    requires var t := ts[|ts| - 1];
      more == [t] || (|ts| % 2 == 1 && |more| == 3 && more[0] == t && t != "" && more[1] == " " && NoSpace(more[2]) && more[2] != "")
    ensures Follows(ts, out + more)
  {
    hide Alternating, NoSpace, Blank;
    AlternatingPrefix(ts);
    var n := |ts| - 1;
    assert n > 0 ==> ts[..n][n - 1] == ts[n - 1];
    Appended(out, more);
  }

  /** Putting twins in keeps the pieces alternating. */
  lemma {:induction false} WithTwinsAlternate(ts: seq<string>, present: set<string>)
    requires Alternating(ts)
    ensures Follows(ts, WithTwins(ts, present))
  {
    hide WithTwin, NoSpace, Blank;
    if ts != [] {
      hide Alternating, Follows;
      var n := |ts| - 1;
      AlternatingPrefix(ts);
      WithTwinsAlternate(ts[..n], present);
      if n % 2 == 0 {
        WithTwinAlternates(ts[n], present);
      } else {
        BlankHasNoTwin(ts[n], present);
      }
      FollowsStep(ts, WithTwins(ts[..n], present), WithTwin(ts[n], present));
    }
  }

  lemma BlankHasNoTwin(t: string, present: set<string>)
    requires Blank(t)
    ensures WithTwin(t, present) == [t]
  {
  }

  /** A word, a word with its twin, or a gap may follow pieces that end in the other kind. */
  lemma Appended(out: seq<string>, more: seq<string>)
    requires Alternating(out) && (|out| <= 1 || out[|out| - 1] != "")
    requires |more| == 1 || (|more| == 3 && more[0] != "" && more[1] == " " && NoSpace(more[2]))
    requires if |out| % 2 == 0 then NoSpace(more[0]) else |more| == 1 && Blank(more[0]) && more[0] != ""
    ensures Alternating(out + more)
  {
    hide NoSpace;
    var r := out + more;
    forall i | 0 <= i < |r|
      ensures i % 2 == 0 ==> NoSpace(r[i])
      ensures i % 2 == 1 ==> Blank(r[i]) && r[i] != ""
      ensures 0 < i < |r| - 1 ==> r[i] != ""
    {
      if i < |out| {
        assert r[i] == out[i];
      } else {
        assert r[i] == more[i - |out|];
      }
    }
  }

  /** A piece of the rewritten text: a piece from before, the space before a twin, or a twin. */
  ghost predicate Known(p: string, ts: seq<string>) {
    p in ts || p == " " || exists t :: t in ts && MirroredTranslate(t) == Some(p)
  }

  lemma {:induction false} WithTwinsKnown(ts: seq<string>, present: set<string>)
    ensures forall p :: p in WithTwins(ts, present) ==> Known(p, ts)
    ensures WithTwins(ts, present) == ts || AnyRtlTranslate(WithTwins(ts, present))
  {
    hide WithTwin, Known, AnyRtlTranslate;
    if ts != [] {
      var n := |ts| - 1;
      WithTwinsKnown(ts[..n], present);
      var out, more := WithTwins(ts[..n], present), WithTwin(ts[n], present);
      assert ts == ts[..n] + [ts[n]];
      TwinKnown(ts[n], ts, present);
      forall p | p in out + more ensures Known(p, ts) {
        if p in out {
          KnownGrows(p, ts[..n], ts);
        }
      }
      AnyRtlAppend(out, more);
    }
  }

  lemma TwinKnown(t: string, ts: seq<string>, present: set<string>)
    requires t in ts
    ensures forall p :: p in WithTwin(t, present) ==> Known(p, ts)
    ensures WithTwin(t, present) == [t] || AnyRtlTranslate(WithTwin(t, present))
  {
    hide MirroredTranslate, HasRtlTranslate;
    var more := WithTwin(t, present);
    if more != [t] {
      TwinLaw(t);
      assert HasRtlTranslate(more[2]);
    }
  }

  lemma KnownGrows(p: string, a: seq<string>, b: seq<string>)
    requires Known(p, a) && forall t :: t in a ==> t in b
    ensures Known(p, b)
  {
    hide MirroredTranslate;
  }

  lemma AnyRtlAppend(a: seq<string>, b: seq<string>)
    ensures AnyRtlTranslate(a) || AnyRtlTranslate(b) ==> AnyRtlTranslate(a + b)
  {
    hide HasRtlTranslate;
    if AnyRtlTranslate(a) {
      var i :| 0 <= i < |a| && HasRtlTranslate(a[i]);
      assert HasRtlTranslate((a + b)[i]);
    } else if AnyRtlTranslate(b) {
      var i :| 0 <= i < |b| && HasRtlTranslate(b[i]);
      assert HasRtlTranslate((a + b)[|a| + i]);
    }
  }

  /** Every piece of the rewritten text is logical already. */
  lemma KnownIsLogical(p: string, ts: seq<string>)
    requires Known(p, ts) && forall t :: t in ts ==> LogicalPiece(t) == t
    ensures LogicalPiece(p) == p
  {
    hide Logical, MirroredTranslate;
    if p !in ts && p != " " {
      var t :| t in ts && MirroredTranslate(t) == Some(p);
      TwinLaw(t);
    }
  }

  // ---------- The claim ----------

  lemma RewrittenAlternates(text: string)
    ensures Alternating(Rewritten(text)) && |Rewritten(text)| % 2 == 1
    ensures LogicalPieces(Rewritten(text)) == Rewritten(text)
  {
    hide Logical, AnyRtlTranslate, WithTwins, LogicalPiece, Alternating, Pieces;
    PiecesLaw(text);
    var ps := Pieces(text);
    var ts := LogicalPieces(ps);
    LogicalPiecesAlternate(ps);
    forall t | t in ts ensures LogicalPiece(t) == t {
      var i :| 0 <= i < |ts| && ts[i] == t;
      LogicalPieceIdempotent(ps[i]);
    }
    var present := set t | t in ts;
    WithTwinsAlternate(ts, present);
    WithTwinsKnown(ts, present);
    forall p | p in Rewritten(text) ensures LogicalPiece(p) == p {
      KnownIsLogical(p, ts);
    }
  }

  /** The rewriter is idempotent on every class string. */
  lemma RewriteIdempotent(text: string)
    ensures Concat(Rewritten(Concat(Rewritten(text)))) == Concat(Rewritten(text))
  {
    hide AnyRtlTranslate, WithTwins, LogicalPieces, Alternating, Pieces;
    var ts := LogicalPieces(Pieces(text));
    var out := Rewritten(text);
    RewrittenAlternates(text);
    PiecesOfConcat(out);
    WithTwinsKnown(ts, set t | t in ts);
  }

  /** The test for a twin that is already there never fires: when no token carries an rtl:
  translate, no token is a twin. */
  lemma {:induction false} PresentTestIsDead(ts: seq<string>, present: set<string>)
    requires forall t :: t in present ==> !HasRtlTranslate(t)
    ensures WithTwins(ts, present) == WithTwins(ts, {})
  {
    hide HasRtlTranslate, MirroredTranslate;
    if ts != [] {
      var n := |ts| - 1;
      PresentTestIsDead(ts[..n], present);
      if MirroredTranslate(ts[n]).Some? {
        TwinLaw(ts[n]);
      }
    }
  }
}
