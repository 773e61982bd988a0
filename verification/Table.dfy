/** Filter, sort and pages of a data table (apps/console/src/lib/table.ts).

Unicode folding, the collator and the printing of numbers are parameters; of the collator it is
only known, where it matters, that it is a total preorder. */
module Table {
  import opened JsText
  import opened Wrappers

  // ---------- Filter ----------

  function Filter<T>(keep: T -> bool, rows: seq<T>): seq<T> {
    if rows == [] then []
    else if keep(rows[0]) then [rows[0]] + Filter(keep, rows[1..])
    else Filter(keep, rows[1..])
  }

  /** text.split(/\s+/).filter(Boolean) */
  function Words(text: string): seq<string> {
    WordsAfter("", text)
  }

  function WordsAfter(word: string, text: string): seq<string>
    decreases |text|
  {
    var done := if word == "" then [] else [word];
    if text == "" then done
    else if IsSpace(text[0]) then done + WordsAfter("", text[1..])
    else WordsAfter(word + [text[0]], text[1..])
  }

  predicate OnlySpaces(s: string) {
    forall i :: 0 <= i < |s| ==> IsSpace(s[i])
  }

  predicate IsWord(s: string) {
    s != "" && forall i :: 0 <= i < |s| ==> !IsSpace(s[i])
  }

  /** The words with the gaps around them. */
  function Woven(gaps: seq<string>, words: seq<string>): string
    requires |gaps| == |words| + 1
  {
    if words == [] then gaps[0] else gaps[0] + words[0] + Woven(gaps[1..], words[1..])
  }

  /** Gaps of white space, of which only the first and the last may be empty. */
  predicate AreGaps(gaps: seq<string>) {
    && (forall i :: 0 <= i < |gaps| ==> OnlySpaces(gaps[i]))
    && forall i :: 0 < i < |gaps| - 1 ==> gaps[i] != ""
  }

  /** The words of a text are what stands between its white space. */
  lemma WordsLaw(text: string) returns (gaps: seq<string>)
    ensures |gaps| == |Words(text)| + 1 && AreGaps(gaps) && text == Woven(gaps, Words(text))
    ensures forall w :: w in Words(text) ==> IsWord(w)
  {
    gaps := WordsAfterLaw("", text);
    assert "" + text == text;
  }

  lemma {:induction false} WordsAfterLaw(word: string, text: string) returns (gaps: seq<string>)
    requires word == "" || IsWord(word)
    ensures |gaps| == |WordsAfter(word, text)| + 1 && AreGaps(gaps) && word + text == Woven(gaps, WordsAfter(word, text))
    ensures word != "" ==> gaps[0] == ""
    ensures forall w :: w in WordsAfter(word, text) ==> IsWord(w)
    decreases |text|
  {
    if text == "" {
      gaps := if word == "" then [""] else ["", ""];
      assert word + text == Woven(gaps, WordsAfter(word, text));
    } else {
      var c, rest := text[0], text[1..];
      assert text == [c] + rest;
      if !IsSpace(c) {
        gaps := WordsAfterLaw(word + [c], rest);
        assert word + [c] + rest == word + text;
      } else {
        var more := WordsAfterLaw("", rest);
        gaps := WordEnds(word, c, rest, more);
        assert word + text == word + ([c] + rest);
      }
    }
  }

  /** A space after a word, or between two. */
  lemma WordEnds(word: string, c: char, rest: string, more: seq<string>) returns (gaps: seq<string>)
    requires (word == "" || IsWord(word)) && IsSpace(c)
    requires |more| == |WordsAfter("", rest)| + 1 && AreGaps(more) && "" + rest == Woven(more, WordsAfter("", rest))
    ensures |gaps| == |WordsAfter(word, [c] + rest)| + 1 && AreGaps(gaps)
    ensures word + ([c] + rest) == Woven(gaps, WordsAfter(word, [c] + rest)) && (word != "" ==> gaps[0] == "")
    ensures WordsAfter(word, [c] + rest) == (if word == "" then [] else [word]) + WordsAfter("", rest)
  {
    hide IsWord, AreGaps, Woven, WordsAfter;
    var words := WordsAfter("", rest);
    SpaceEndsWord(word, c, rest);
    assert "" + rest == rest;
    var first := [[c] + more[0]] + more[1..];
    GapGrows(c, more, words);
    if word == "" {
      gaps := first;
      assert [] + words == words && word + ([c] + rest) == [c] + rest;
    } else {
      gaps := [""] + first;
      EmptyGap(first);
      WovenFirst(first, word, words);
    }
  }

  lemma SpaceEndsWord(word: string, c: char, rest: string)
    requires IsSpace(c)
    ensures WordsAfter(word, [c] + rest) == (if word == "" then [] else [word]) + WordsAfter("", rest)
  {
    assert ([c] + rest)[1..] == rest;
  }

  lemma WovenUnfolds(gaps: seq<string>, words: seq<string>)
    requires |gaps| == |words| + 1 && words != []
    ensures Woven(gaps, words) == gaps[0] + words[0] + Woven(gaps[1..], words[1..])
  {
  }

  lemma WovenFirst(gaps: seq<string>, word: string, words: seq<string>)
    requires |gaps| == |words| + 1
    ensures Woven([""] + gaps, [word] + words) == word + Woven(gaps, words)
  {
    var g, w := [""] + gaps, [word] + words;
    assert g[1..] == gaps && w[1..] == words && g[0] == "" && w[0] == word;
    WovenUnfolds(g, w);
    assert "" + word == word;
    hide Woven;
  }

  lemma EmptyGap(gaps: seq<string>)
    requires AreGaps(gaps) && gaps != [] && gaps[0] != ""
    ensures AreGaps([""] + gaps)
  {
    assert OnlySpaces("");
  }

  lemma GapGrows(c: char, gaps: seq<string>, words: seq<string>)
    requires |gaps| == |words| + 1 && AreGaps(gaps) && IsSpace(c)
    ensures var first := [[c] + gaps[0]] + gaps[1..];
      |first| == |words| + 1 && AreGaps(first) && first[0] != "" && Woven(first, words) == [c] + Woven(gaps, words)
  {
    var first := [[c] + gaps[0]] + gaps[1..];
    assert first[1..] == gaps[1..];
  }

  /** The row has every word of the query. */
  predicate Found<T(!new)>(fold: string -> string, query: string, text: T -> string, row: T) {
    forall w :: w in Words(fold(query)) ==> Includes(fold(text(row)), w)
  }

  /** In the folded text of the row, in any column and order. */
  lemma FoundMeans<T(!new)>(fold: string -> string, query: string, text: T -> string, row: T)
    ensures Found(fold, query, text, row) <==>
      forall w :: w in Words(fold(query)) ==> exists a, b :: fold(text(row)) == a + w + b
  {
    var s := fold(text(row));
    forall w ensures Includes(s, w) <==> exists a, b :: s == a + w + b {
      IncludesMeans(s, w);
    }
  }

  function FilterRows<T(!new)>(fold: string -> string, rows: seq<T>, query: string, text: T -> string): seq<T> {
    if Words(fold(query)) == [] then rows else Filter(row => Found(fold, query, text, row), rows)
  }

  // ---------- Sort ----------

  /** null, undefined and the empty string are empty. */
  datatype SortValue = Nothing | Number(n: real) | Text(s: string) {
    predicate IsEmpty() {
      Nothing? || (Text? && s == "")
    }
  }

  datatype Collation = Collation(compare: (string, string) -> int, show: real -> string)

  /** A row, its position in the input and what it is sorted by. */
  datatype Entry<T> = Entry(row: T, index: nat, v: SortValue)

  function Show(c: Collation, v: SortValue): string {
    match v
    case Number(n) => c.show(n)
    case Text(s) => s
    case Nothing => ""
  }

  function KeyOrder(c: Collation, a: SortValue, b: SortValue): real {
    if a.Number? && b.Number? then a.n - b.n else c.compare(Show(c, a), Show(c, b)) as real
  }

  /** The comparator given to Array.prototype.sort. */
  function Compare<T>(c: Collation, desc: bool, a: Entry<T>, b: Entry<T>): real {
    var byIndex := (a.index - b.index) as real;
    if a.v.IsEmpty() || b.v.IsEmpty() then
      if a.v.IsEmpty() == b.v.IsEmpty() then byIndex else if a.v.IsEmpty() then 1.0 else -1.0
    else
      var order := KeyOrder(c, a.v, b.v);
      if order == 0.0 then byIndex else order * if desc then -1.0 else 1.0
  }

  predicate Before<T>(c: Collation, desc: bool, a: Entry<T>, b: Entry<T>) {
    Compare(c, desc, a, b) < 0.0
  }

  function Insert<T>(c: Collation, desc: bool, x: Entry<T>, es: seq<Entry<T>>): seq<Entry<T>> {
    if es == [] || Before(c, desc, x, es[0]) then [x] + es else [es[0]] + Insert(c, desc, x, es[1..])
  }

  function SortEntries<T>(c: Collation, desc: bool, es: seq<Entry<T>>): seq<Entry<T>> {
    if es == [] then [] else Insert(c, desc, es[0], SortEntries(c, desc, es[1..]))
  }

  function Entries<T>(rows: seq<T>, value: T -> SortValue): seq<Entry<T>> {
    seq(|rows|, i requires 0 <= i < |rows| => Entry(rows[i], i, value(rows[i])))
  }

  function Rows<T>(es: seq<Entry<T>>): seq<T> {
    seq(|es|, i requires 0 <= i < |es| => es[i].row)
  }

  function SortRows<T>(c: Collation, rows: seq<T>, value: T -> SortValue, desc: bool): seq<T> {
    Rows(SortEntries(c, desc, Entries(rows, value)))
  }

  // ---------- The comparator is an order ----------

  /** On these values, but for empty ones, the comparison of keys is a total preorder. */
  ghost predicate Consistent(c: Collation, vs: set<SortValue>) {
    && (forall a, b | a in vs && b in vs && !a.IsEmpty() && !b.IsEmpty() :: KeyOrder(c, a, b) < 0.0 <==> KeyOrder(c, b, a) > 0.0)
    && (forall a, b, d | a in vs && b in vs && d in vs && !a.IsEmpty() && !b.IsEmpty() && !d.IsEmpty() ::
          KeyOrder(c, a, b) <= 0.0 && KeyOrder(c, b, d) <= 0.0 ==> KeyOrder(c, a, d) <= 0.0)
  }

  /** What a collator is taken to be. */
  ghost predicate TotalPreorder(c: Collation) {
    && (forall s, t :: c.compare(s, t) < 0 <==> c.compare(t, s) > 0)
    && (forall s, t, u :: c.compare(s, t) <= 0 && c.compare(t, u) <= 0 ==> c.compare(s, u) <= 0)
  }

  /** All numbers or all strings, but for empty values. */
  predicate OneKind(vs: set<SortValue>) {
    (forall v :: v in vs ==> v.IsEmpty() || v.Number?) || (forall v :: v in vs ==> v.IsEmpty() || v.Text?)
  }

  lemma OneKindIsConsistent(c: Collation, vs: set<SortValue>)
    requires TotalPreorder(c) && OneKind(vs)
    ensures Consistent(c, vs)
  {
  }

  /** The collator puts the text between the two numbers, the larger one first. */
  ghost predicate WrongAround(c: Collation, m: real, n: real, s: string) {
    m < n && s != "" && c.compare(c.show(n), s) <= 0 && c.compare(s, c.show(m)) <= 0
  }

  /** A column of numbers and strings need not be: two numbers in the wrong order around a string. */
  lemma MixedMayNotBe(c: Collation, vs: set<SortValue>, m: real, n: real, s: string)
    requires Number(m) in vs && Number(n) in vs && Text(s) in vs && WrongAround(c, m, n, s)
    ensures !Consistent(c, vs)
  {
    assert KeyOrder(c, Number(n), Text(s)) <= 0.0 && KeyOrder(c, Text(s), Number(m)) <= 0.0;
    assert KeyOrder(c, Number(n), Number(m)) > 0.0;
  }

  /** And that is all that can be wrong with one. */
  lemma ConsistentExactlyWhenNoneIsWrong(c: Collation, vs: set<SortValue>)
    requires TotalPreorder(c)
    ensures Consistent(c, vs) <==>
      forall m, n, s | Number(m) in vs && Number(n) in vs && Text(s) in vs :: !WrongAround(c, m, n, s)
  {
    if Consistent(c, vs) {
      forall m, n, s | Number(m) in vs && Number(n) in vs && Text(s) in vs ensures !WrongAround(c, m, n, s) {
        if WrongAround(c, m, n, s) {
          MixedMayNotBe(c, vs, m, n, s);
        }
      }
    } else if forall m, n, s | Number(m) in vs && Number(n) in vs && Text(s) in vs :: !WrongAround(c, m, n, s) {
      forall a, b, d | a in vs && b in vs && d in vs && !a.IsEmpty() && !b.IsEmpty() && !d.IsEmpty()
        && KeyOrder(c, a, b) <= 0.0 && KeyOrder(c, b, d) <= 0.0
        ensures KeyOrder(c, a, d) <= 0.0
      {
        KeysAreTransitive(c, a, b, d);
      }
    }
  }

  lemma KeysAreTransitive(c: Collation, a: SortValue, b: SortValue, d: SortValue)
    requires TotalPreorder(c) && !a.IsEmpty() && !b.IsEmpty() && !d.IsEmpty()
    requires KeyOrder(c, a, b) <= 0.0 && KeyOrder(c, b, d) <= 0.0
    requires forall m, n, s | {Number(m), Number(n), Text(s)} <= {a, b, d} :: !WrongAround(c, m, n, s)
    ensures KeyOrder(c, a, d) <= 0.0
  {
  }

  /** Of two rows one comes first, and a row before another comes before what follows that. */
  ghost predicate IsOrder(c: Collation, desc: bool, vs: set<SortValue>) {
    && (forall a: Entry<()>, b: Entry<()> | a.v in vs && b.v in vs && a.index != b.index :: Before(c, desc, a, b) <==> !Before(c, desc, b, a))
    && (forall a: Entry<()>, b: Entry<()>, d: Entry<()> | a.v in vs && b.v in vs && d.v in vs && Before(c, desc, a, b) && Before(c, desc, b, d) ::
          Before(c, desc, a, d))
  }

  lemma BeforeIsTotal<T>(c: Collation, desc: bool, vs: set<SortValue>, a: Entry<T>, b: Entry<T>)
    requires Consistent(c, vs) && a.v in vs && b.v in vs && a.index != b.index
    ensures Before(c, desc, a, b) <==> !Before(c, desc, b, a)
  {
  }

  lemma BeforeIsTransitive<T>(c: Collation, desc: bool, vs: set<SortValue>, x: Entry<T>, y: Entry<T>, z: Entry<T>)
    requires Consistent(c, vs) && x.v in vs && y.v in vs && z.v in vs
    requires Before(c, desc, x, y) && Before(c, desc, y, z)
    ensures Before(c, desc, x, z)
  {
  }

  /** The comparator orders the rows of a column if and only if its values are consistent. */
  lemma OrderExactlyWhenConsistent(c: Collation, desc: bool, vs: set<SortValue>)
    ensures IsOrder(c, desc, vs) <==> Consistent(c, vs)
  {
    if Consistent(c, vs) {
      forall a: Entry<()>, b: Entry<()> | a.v in vs && b.v in vs && a.index != b.index
        ensures Before(c, desc, a, b) <==> !Before(c, desc, b, a)
      {
        BeforeIsTotal(c, desc, vs, a, b);
      }
      forall a: Entry<()>, b: Entry<()>, d: Entry<()> | a.v in vs && b.v in vs && d.v in vs && Before(c, desc, a, b) && Before(c, desc, b, d)
        ensures Before(c, desc, a, d)
      {
        BeforeIsTransitive(c, desc, vs, a, b, d);
      }
    }
    if IsOrder(c, desc, vs) {
      hide KeyOrder;
      forall a, b | a in vs && b in vs && !a.IsEmpty() && !b.IsEmpty()
        ensures KeyOrder(c, a, b) < 0.0 <==> KeyOrder(c, b, a) > 0.0
      {
        var x, y := if desc then Entry((), 0, a) else Entry((), 1, a), if desc then Entry((), 1, b) else Entry((), 0, b);
        assert Before(c, desc, x, y) <==> !Before(c, desc, y, x);
      }
      forall a, b, d | a in vs && b in vs && d in vs && !a.IsEmpty() && !b.IsEmpty() && !d.IsEmpty()
          && KeyOrder(c, a, b) <= 0.0 && KeyOrder(c, b, d) <= 0.0
        ensures KeyOrder(c, a, d) <= 0.0
      {
        ThreeInOrder(c, desc, vs, a, b, d);
      }
    }
  }

  lemma ThreeInOrder(c: Collation, desc: bool, vs: set<SortValue>, a: SortValue, b: SortValue, d: SortValue)
    requires IsOrder(c, desc, vs) && a in vs && b in vs && d in vs && !a.IsEmpty() && !b.IsEmpty() && !d.IsEmpty()
    requires KeyOrder(c, a, b) <= 0.0 && KeyOrder(c, b, d) <= 0.0
    ensures KeyOrder(c, a, d) <= 0.0
  {
    hide KeyOrder;
    if desc {
      var x, y, z := Entry((), 2, a), Entry((), 1, b), Entry((), 0, d);
      assert !Before(c, desc, x, y) && !Before(c, desc, y, z);
      assert Before(c, desc, y, x) && Before(c, desc, z, y);
      assert Before(c, desc, z, x);
      assert !Before(c, desc, x, z);
    } else {
      var x, y, z := Entry((), 0, a), Entry((), 1, b), Entry((), 2, d);
      assert Before(c, desc, x, y) && Before(c, desc, y, z);
      assert Before(c, desc, x, z);
    }
  }

  // ---------- The sort ----------

  predicate AllIn<T>(vs: set<SortValue>, es: seq<Entry<T>>) {
    forall i :: 0 <= i < |es| ==> es[i].v in vs
  }

  /** Each entry comes before all that follow it. */
  predicate Ordered<T>(c: Collation, desc: bool, es: seq<Entry<T>>) {
    forall i, j :: 0 <= i < j < |es| ==> Before(c, desc, es[i], es[j])
  }

  predicate IndexesAscend<T>(es: seq<Entry<T>>) {
    forall i, j :: 0 <= i < j < |es| ==> es[i].index < es[j].index
  }

  lemma {:induction false} InsertKeeps<T>(c: Collation, desc: bool, x: Entry<T>, es: seq<Entry<T>>)
    ensures multiset(Insert(c, desc, x, es)) == multiset{x} + multiset(es)
    ensures forall y :: y in Insert(c, desc, x, es) <==> y == x || y in es
  {
    if es != [] && !Before(c, desc, x, es[0]) {
      InsertKeeps(c, desc, x, es[1..]);
      assert es == [es[0]] + es[1..];
    }
  }

  lemma {:induction false} SortKeeps<T>(c: Collation, desc: bool, es: seq<Entry<T>>)
    ensures multiset(SortEntries(c, desc, es)) == multiset(es)
    ensures forall y :: y in SortEntries(c, desc, es) <==> y in es
  {
    if es != [] {
      SortKeeps(c, desc, es[1..]);
      InsertKeeps(c, desc, es[0], SortEntries(c, desc, es[1..]));
      assert es == [es[0]] + es[1..];
    }
  }

  lemma InsertedComesAfter<T>(c: Collation, desc: bool, x: Entry<T>, es: seq<Entry<T>>, y: Entry<T>)
    requires es != [] && Ordered(c, desc, es) && Before(c, desc, es[0], x) && y in Insert(c, desc, x, es[1..])
    ensures Before(c, desc, es[0], y)
  {
    hide Before;
    InsertKeeps(c, desc, x, es[1..]);
    if y != x {
      var i :| 0 <= i < |es[1..]| && es[1..][i] == y;
      assert es[i + 1] == y;
    }
  }

  lemma {:induction false} InsertOrders<T>(c: Collation, desc: bool, vs: set<SortValue>, x: Entry<T>, es: seq<Entry<T>>)
    requires Consistent(c, vs) && x.v in vs && AllIn(vs, es) && Ordered(c, desc, es)
    requires forall e :: e in es ==> e.index != x.index
    ensures Ordered(c, desc, Insert(c, desc, x, es))
  {
    hide Before;
    if es != [] && Before(c, desc, x, es[0]) {
      forall j | 0 < j < |es| ensures Before(c, desc, x, es[j]) {
        BeforeIsTransitive(c, desc, vs, x, es[0], es[j]);
      }
    } else if es != [] {
      assert es[0] in es;
      BeforeIsTotal(c, desc, vs, x, es[0]);
      InsertOrders(c, desc, vs, x, es[1..]);
      var rest := Insert(c, desc, x, es[1..]);
      InsertKeeps(c, desc, x, es[1..]);
      forall j | 0 <= j < |rest| ensures Before(c, desc, es[0], rest[j]) {
        InsertedComesAfter(c, desc, x, es, rest[j]);
      }
    }
  }

  lemma SortedFromTail<T>(c: Collation, desc: bool, es: seq<Entry<T>>, e: Entry<T>)
    requires es != [] && e in SortEntries(c, desc, es[1..])
    ensures exists i :: 0 < i < |es| && es[i] == e
  {
    SortKeeps(c, desc, es[1..]);
    var i :| 0 <= i < |es[1..]| && es[1..][i] == e;
    assert es[i + 1] == e;
  }

  lemma {:induction false} SortOrders<T>(c: Collation, desc: bool, vs: set<SortValue>, es: seq<Entry<T>>)
    requires Consistent(c, vs) && AllIn(vs, es) && IndexesAscend(es)
    ensures Ordered(c, desc, SortEntries(c, desc, es))
  {
    if es != [] {
      SortOrders(c, desc, vs, es[1..]);
      SortKeeps(c, desc, es[1..]);
      var sorted := SortEntries(c, desc, es[1..]);
      forall i | 0 <= i < |sorted| ensures sorted[i].v in vs {
        assert sorted[i] in sorted;
        SortedFromTail(c, desc, es, sorted[i]);
      }
      forall e | e in sorted ensures e.index != es[0].index {
        SortedFromTail(c, desc, es, e);
      }
      InsertOrders(c, desc, vs, es[0], sorted);
    }
  }

  lemma BeforeIsAsymmetric<T>(c: Collation, desc: bool, vs: set<SortValue>, a: Entry<T>, b: Entry<T>)
    requires Consistent(c, vs) && a.v in vs && b.v in vs
    ensures !(Before(c, desc, a, b) && Before(c, desc, b, a))
  {
  }

  lemma SameFirst<T>(c: Collation, desc: bool, vs: set<SortValue>, es: seq<Entry<T>>, fs: seq<Entry<T>>)
    requires Consistent(c, vs) && AllIn(vs, es) && AllIn(vs, fs)
    requires Ordered(c, desc, es) && Ordered(c, desc, fs) && es != [] && fs != []
    requires es[0] in fs && fs[0] in es
    ensures es[0] == fs[0]
  {
    hide Before;
    BeforeIsAsymmetric(c, desc, vs, es[0], fs[0]);
  }

  /** There is one ordered arrangement of the rows, so it is what any correct sort gives. */
  lemma {:induction false} OrderedUnique<T>(c: Collation, desc: bool, vs: set<SortValue>, es: seq<Entry<T>>, fs: seq<Entry<T>>)
    requires Consistent(c, vs) && AllIn(vs, es) && AllIn(vs, fs)
    requires Ordered(c, desc, es) && Ordered(c, desc, fs) && multiset(es) == multiset(fs)
    ensures es == fs
  {
    hide Before, Consistent;
    assert |es| == |multiset(es)| == |multiset(fs)| == |fs|;
    if es != [] {
      assert es[0] in multiset(fs) && fs[0] in multiset(es);
      SameFirst(c, desc, vs, es, fs);
      SameTail(es, fs);
      OrderedUnique(c, desc, vs, es[1..], fs[1..]);
    }
  }

  lemma SameTail<T>(es: seq<T>, fs: seq<T>)
    requires es != [] && fs != [] && es[0] == fs[0] && multiset(es) == multiset(fs)
    ensures multiset(es[1..]) == multiset(fs[1..])
  {
    assert es == [es[0]] + es[1..] && fs == [fs[0]] + fs[1..];
    assert multiset(es[1..]) == multiset(es) - multiset{es[0]};
    assert multiset(fs[1..]) == multiset(fs) - multiset{fs[0]};
  }

  // ---------- What the order means for the rows ----------

  /** The rows are sorted alike: both empty, or neither empty and equal to the comparison. */
  predicate SameKey(c: Collation, a: SortValue, b: SortValue) {
    if a.IsEmpty() || b.IsEmpty() then a.IsEmpty() == b.IsEmpty() else KeyOrder(c, a, b) == 0.0
  }

  lemma AlikeByIndex<T>(c: Collation, desc: bool, vs: set<SortValue>, a: Entry<T>, b: Entry<T>, key: SortValue)
    requires Consistent(c, vs) && a.v in vs && b.v in vs && (key in vs || key.IsEmpty())
    requires SameKey(c, a.v, key) && SameKey(c, b.v, key) && a.index < b.index
    ensures Before(c, desc, a, b)
  {
  }

  /** A row inserted goes in front of those sorted alike. */
  lemma {:induction false} InsertIsStable<T>(c: Collation, desc: bool, vs: set<SortValue>, x: Entry<T>, es: seq<Entry<T>>, key: SortValue)
    requires Consistent(c, vs) && x.v in vs && AllIn(vs, es) && (key in vs || key.IsEmpty())
    requires forall e :: e in es ==> x.index < e.index
    ensures Filter((e: Entry<T>) => SameKey(c, e.v, key), Insert(c, desc, x, es))
         == Filter((e: Entry<T>) => SameKey(c, e.v, key), [x] + es)
  {
    var keep := (e: Entry<T>) => SameKey(c, e.v, key);
    assert ([x] + es)[1..] == es;
    if es != [] && !Before(c, desc, x, es[0]) {
      assert es[0] in es;
      var rest := Insert(c, desc, x, es[1..]);
      InsertIsStable(c, desc, vs, x, es[1..], key);
      assert ([x] + es[1..])[1..] == es[1..];
      assert ([es[0]] + rest)[1..] == rest;
      if keep(x) && keep(es[0]) {
        AlikeByIndex(c, desc, vs, x, es[0], key);
      }
    }
  }

  lemma {:induction false} SortEntriesIsStable<T>(c: Collation, desc: bool, vs: set<SortValue>, es: seq<Entry<T>>, key: SortValue)
    requires Consistent(c, vs) && AllIn(vs, es) && IndexesAscend(es) && (key in vs || key.IsEmpty())
    ensures Filter((e: Entry<T>) => SameKey(c, e.v, key), SortEntries(c, desc, es))
         == Filter((e: Entry<T>) => SameKey(c, e.v, key), es)
  {
    if es != [] {
      var sorted := SortEntries(c, desc, es[1..]);
      SortEntriesIsStable(c, desc, vs, es[1..], key);
      forall e | e in sorted ensures es[0].index < e.index && e.v in vs {
        SortedFromTail(c, desc, es, e);
      }
      InsertIsStable(c, desc, vs, es[0], sorted, key);
      assert ([es[0]] + sorted)[1..] == sorted;
    }
  }

  /** Keeping rows and keeping their entries is the same. */
  lemma {:induction false} FilterOfRows<T(!new)>(value: T -> SortValue, c: Collation, key: SortValue, es: seq<Entry<T>>)
    requires forall e :: e in es ==> e.v == value(e.row)
    ensures Filter((r: T) => SameKey(c, value(r), key), Rows(es))
         == Rows(Filter((e: Entry<T>) => SameKey(c, e.v, key), es))
  {
    if es != [] {
      FilterOfRows(value, c, key, es[1..]);
      assert es[0] in es;
      assert Rows(es)[1..] == Rows(es[1..]);
      var kept := Filter((e: Entry<T>) => SameKey(c, e.v, key), es[1..]);
      assert Rows([es[0]] + kept) == [es[0].row] + Rows(kept);
    }
  }

  /** The values of the rows are among these. */
  ghost predicate ValuesIn<T(!new)>(rows: seq<T>, value: T -> SortValue, vs: set<SortValue>) {
    forall r :: r in rows ==> value(r) in vs
  }

  lemma EntriesLaw<T(!new)>(rows: seq<T>, value: T -> SortValue, vs: set<SortValue>)
    requires ValuesIn(rows, value, vs)
    ensures Rows(Entries(rows, value)) == rows
    ensures AllIn(vs, Entries(rows, value)) && IndexesAscend(Entries(rows, value))
    ensures forall e :: e in Entries(rows, value) ==> e.v == value(e.row)
  {
    forall i | 0 <= i < |rows| ensures Entries(rows, value)[i].v in vs {
      assert rows[i] in rows;
    }
  }

  /** Stable: rows that are sorted alike keep their order, in either direction. The empty ones are
  one such class. */
  lemma SortIsStable<T(!new)>(c: Collation, rows: seq<T>, value: T -> SortValue, desc: bool, vs: set<SortValue>, key: SortValue)
    requires Consistent(c, vs) && ValuesIn(rows, value, vs) && (key in vs || key.IsEmpty())
    ensures Filter((r: T) => SameKey(c, value(r), key), SortRows(c, rows, value, desc))
         == Filter((r: T) => SameKey(c, value(r), key), rows)
  {
    var es := Entries(rows, value);
    EntriesLaw(rows, value, vs);
    SortKeeps(c, desc, es);
    SortEntriesIsStable(c, desc, vs, es, key);
    FilterOfRows(value, c, key, es);
    FilterOfRows(value, c, key, SortEntries(c, desc, es));
  }

  /** Empty values come last, and the others ascend or descend. */
  lemma SortIsOrdered<T(!new)>(c: Collation, rows: seq<T>, value: T -> SortValue, desc: bool, vs: set<SortValue>, i: nat, j: nat)
    requires Consistent(c, vs) && ValuesIn(rows, value, vs)
    requires i < j < |SortRows(c, rows, value, desc)|
    ensures var a, b := value(SortRows(c, rows, value, desc)[i]), value(SortRows(c, rows, value, desc)[j]);
      && (a.IsEmpty() ==> b.IsEmpty())
      && (!b.IsEmpty() ==> if desc then KeyOrder(c, a, b) >= 0.0 else KeyOrder(c, a, b) <= 0.0)
  {
    var es := Entries(rows, value);
    EntriesLaw(rows, value, vs);
    SortKeeps(c, desc, es);
    SortOrders(c, desc, vs, es);
    var sorted := SortEntries(c, desc, es);
    assert sorted[i] in es && sorted[j] in es;
    assert Before(c, desc, sorted[i], sorted[j]);
  }

  /** Two values in this order, as far as they can be compared: numbers by size, and texts, and numbers
  with texts, as the collator puts them. */
  predicate InOrder(c: Collation, a: SortValue, b: SortValue) {
    match (a, b)
    case (Number(m), Number(n)) => m <= n
    case (Text(s), Text(t)) => c.compare(s, t) <= 0
    case (Number(m), Text(t)) => c.compare(c.show(m), t) <= 0
    case (Text(s), Number(n)) => c.compare(s, c.show(n)) <= 0
    case _ => true
  }

  /** Rows ascend, or descend, but for the empty values at the end. */
  lemma SortPutsInOrder<T(!new)>(c: Collation, rows: seq<T>, value: T -> SortValue, desc: bool, vs: set<SortValue>, i: nat, j: nat)
    requires TotalPreorder(c) && Consistent(c, vs) && ValuesIn(rows, value, vs)
    requires i < j < |SortRows(c, rows, value, desc)|
    ensures var a, b := value(SortRows(c, rows, value, desc)[i]), value(SortRows(c, rows, value, desc)[j]);
      && (a == Nothing || a == Text("") ==> b == Nothing || b == Text(""))
      && (b != Nothing && b != Text("") ==> if desc then InOrder(c, b, a) else InOrder(c, a, b))
  {
    hide SortRows, ValuesIn, Consistent;
    SortIsOrdered(c, rows, value, desc, vs, i, j);
    var a, b := value(SortRows(c, rows, value, desc)[i]), value(SortRows(c, rows, value, desc)[j]);
    assert c.compare(Show(c, a), Show(c, b)) < 0 <==> c.compare(Show(c, b), Show(c, a)) > 0;
    assert c.compare(Show(c, b), Show(c, a)) < 0 <==> c.compare(Show(c, a), Show(c, b)) > 0;
  }

  lemma {:induction false} InsertKeepsRows<T>(c: Collation, desc: bool, x: Entry<T>, es: seq<Entry<T>>)
    ensures multiset(Rows(Insert(c, desc, x, es))) == multiset{x.row} + multiset(Rows(es))
  {
    if es == [] || Before(c, desc, x, es[0]) {
      assert Rows([x] + es) == [x.row] + Rows(es);
    } else {
      InsertKeepsRows(c, desc, x, es[1..]);
      var rest := Insert(c, desc, x, es[1..]);
      assert Rows([es[0]] + rest) == [es[0].row] + Rows(rest);
      assert Rows(es) == [es[0].row] + Rows(es[1..]);
    }
  }

  /** Sorting loses and adds no row. */
  lemma {:induction false} SortKeepsRows<T>(c: Collation, desc: bool, es: seq<Entry<T>>)
    ensures multiset(Rows(SortEntries(c, desc, es))) == multiset(Rows(es))
  {
    if es != [] {
      SortKeepsRows(c, desc, es[1..]);
      InsertKeepsRows(c, desc, es[0], SortEntries(c, desc, es[1..]));
      assert Rows(es) == [es[0].row] + Rows(es[1..]);
    }
  }

  /** Whatever stable or unstable algorithm the engine sorts with, these are the rows it gives. */
  lemma AnySortGivesThese<T>(c: Collation, rows: seq<T>, value: T -> SortValue, desc: bool, vs: set<SortValue>, es: seq<Entry<T>>)
    requires Consistent(c, vs) && AllIn(vs, Entries(rows, value))
    requires Ordered(c, desc, es) && multiset(es) == multiset(Entries(rows, value))
    ensures Rows(es) == SortRows(c, rows, value, desc)
  {
    var given := Entries(rows, value);
    var sorted := SortEntries(c, desc, given);
    SortOrders(c, desc, vs, given);
    SortKeeps(c, desc, given);
    KindOfAll(vs, given, es);
    KindOfAll(vs, given, sorted);
    OrderedUnique(c, desc, vs, es, sorted);
  }

  lemma KindOfAll<T>(vs: set<SortValue>, es: seq<Entry<T>>, fs: seq<Entry<T>>)
    requires AllIn(vs, es) && multiset(es) == multiset(fs)
    ensures AllIn(vs, fs)
  {
    forall i | 0 <= i < |fs| ensures fs[i].v in vs {
      assert fs[i] in multiset(es);
    }
  }

  // ---------- Pages ----------

  /** rows.slice(start, end): a negative bound counts from the end. */
  function Slice<T>(rows: seq<T>, start: int, end: int): seq<T> {
    var n := |rows|;
    var lo := if start < 0 then Max(n + start, 0) else Min(start, n);
    var hi := if end < 0 then Max(n + end, 0) else Min(end, n);
    if lo < hi then rows[lo..hi] else []
  }

  datatype PageSlice<T> = PageSlice(rows: seq<T>, page: int, pages: int, from: int, to: int)

  /** Math.ceil(n / size), of which at least one. */
  function PageCount(n: nat, size: int): int {
    var step := Max(1, size);
    Max(1, (n + step - 1) / step)
  }

  function Paginate<T>(rows: seq<T>, page: real, size: int): PageSlice<T> {
    var pages := PageCount(|rows|, size);
    var current := Min(Max(0, page.Floor), pages - 1);
    var start := current * size;
    var slice := Slice(rows, start, start + size);
    PageSlice(slice, current, pages, if slice != [] then start + 1 else 0, start + |slice|)
  }

  /** The rows of the first n pages, one after the other. */
  function FirstPages<T>(rows: seq<T>, size: int, n: nat): seq<T> {
    if n == 0 then [] else FirstPages(rows, size, n - 1) + Paginate(rows, (n - 1) as real, size).rows
  }

  function AllPages<T>(rows: seq<T>, size: int): seq<T> {
    FirstPages(rows, size, PageCount(|rows|, size))
  }

  // ---------- The pages make up the rows ----------

  /** The last page starts inside the rows, and there is none after it. */
  lemma PageCountLaw(n: nat, size: int)
    requires size >= 1
    ensures n > 0 ==> (PageCount(n, size) - 1) * size < n <= PageCount(n, size) * size
    ensures n == 0 ==> PageCount(n, size) == 1
  {
    var q, r := (n + size - 1) / size, (n + size - 1) % size;
    assert q * size + r == n + size - 1;
    if n == 0 {
      assert q == 0 by {
        if q > 0 {
          Product(1, q, size);
        }
      }
    } else {
      assert q >= 1 by {
        if q <= 0 {
          Product(q, 0, size);
        }
      }
      assert (q - 1) * size == q * size - size;
    }
  }

  lemma Product(a: int, b: int, size: int)
    requires a <= b && size >= 0
    ensures a * size <= b * size
  {
  }

  /** The rows from one position up to another, as far as there are any. */
  ghost predicate ShowsFrom<T>(p: PageSlice<T>, rows: seq<T>, start: int, size: int) {
    && 0 <= start <= |rows| && size >= 1
    && p.rows == rows[start..Min(start + size, |rows|)]
    && (p.rows == [] <==> rows == [])
    && (rows != [] ==> 1 <= p.from <= p.to <= |rows| && p.rows == rows[p.from - 1..p.to])
    && (rows == [] ==> p.from == p.to == 0)
  }

  /** With a page size below one, the first page shows all rows but as many as it is below zero, or
  none at zero, and every other page none. */
  ghost predicate ShowsBackward<T>(p: PageSlice<T>, rows: seq<T>, size: int) {
    p.rows == if p.page == 0 && size < 0 then rows[..Max(|rows| + size, 0)] else []
  }

  /** The page index is clamped to a real page, which shows its rows and where they are. */
  lemma PageLaw<T>(rows: seq<T>, page: real, size: int)
    ensures var p := Paginate(rows, page, size);
      && 0 <= p.page < p.pages == PageCount(|rows|, size)
      && (if page.Floor < 0 then p.page == 0 else if page.Floor < p.pages then p.page == page.Floor else p.page == p.pages - 1)
      && (size >= 1 ==> ShowsFrom(p, rows, p.page * size, size))
      && (size < 1 ==> ShowsBackward(p, rows, size))
  {
    hide ShowsFrom, ShowsBackward, Slice;
    assert PageCount(|rows|, size) >= 1;
    if size >= 1 {
      ForwardPage(rows, page, size);
    } else {
      BackwardPage(rows, page, size);
    }
  }

  /** What a page is made of. */
  lemma PageParts<T>(rows: seq<T>, page: real, size: int)
    ensures var p := Paginate(rows, page, size); var slice := Slice(rows, p.page * size, p.page * size + size);
      && 0 <= p.page <= PageCount(|rows|, size) - 1
      && p.rows == slice && p.from == (if slice != [] then p.page * size + 1 else 0) && p.to == p.page * size + |slice|
  {
    hide Slice;
    assert PageCount(|rows|, size) >= 1;
  }

  lemma SliceForward<T>(rows: seq<T>, start: int, size: int)
    requires 0 <= start <= |rows| && size >= 1
    ensures Slice(rows, start, start + size) == rows[start..Min(start + size, |rows|)]
  {
  }

  lemma SliceBackward<T>(rows: seq<T>, start: int, size: int)
    requires size < 1 && (start == 0 || (start <= size && size < 0))
    ensures Slice(rows, start, start + size) == if start == 0 && size < 0 then rows[..Max(|rows| + size, 0)] else []
  {
  }

  /** A page but the last one starts inside the rows. */
  lemma PageStart(n: nat, size: int, k: int)
    requires size >= 1 && 0 <= k <= PageCount(n, size) - 1
    ensures 0 <= k * size && (if n > 0 then k * size < n else k * size == 0)
  {
    PageCountLaw(n, size);
    hide PageCount;
    Product(k, PageCount(n, size) - 1, size);
    Product(0, k, size);
    assert n == 0 ==> k == 0;
  }

  lemma ForwardPage<T>(rows: seq<T>, page: real, size: int)
    requires size >= 1
    ensures var p := Paginate(rows, page, size); ShowsFrom(p, rows, p.page * size, size)
  {
    PageParts(rows, page, size);
    hide Paginate, PageCount, Slice;
    var start := Paginate(rows, page, size).page * size;
    PageStart(|rows|, size, Paginate(rows, page, size).page);
    SliceForward(rows, start, size);
  }

  lemma PageBack(size: int, k: int)
    requires size < 1 && k >= 0
    ensures k == 0 || size == 0 ==> k * size == 0
    ensures k > 0 && size < 0 ==> k * size <= size
  {
    if k > 0 {
      Product(1, k, -size);
    }
  }

  lemma BackwardPage<T>(rows: seq<T>, page: real, size: int)
    requires size < 1
    ensures ShowsBackward(Paginate(rows, page, size), rows, size)
  {
    PageParts(rows, page, size);
    hide Paginate, PageCount, Slice;
    var k := Paginate(rows, page, size).page;
    PageBack(size, k);
    SliceBackward(rows, k * size, size);
  }

  /** A page that begins inside the rows is one of the pages. */
  lemma PageIsThere(n: nat, size: int, k: nat)
    requires size >= 1 && (k == 0 || k * size < n)
    ensures k < PageCount(n, size)
  {
    PageCountLaw(n, size);
    hide PageCount;
    if k >= PageCount(n, size) && k > 0 {
      Product(PageCount(n, size), k, size);
    }
  }

  lemma {:induction false} FirstPagesLaw<T>(rows: seq<T>, size: int, n: nat)
    requires size >= 1 && (n <= 1 || (n - 1) * size < |rows|)
    ensures 0 <= n * size
    ensures FirstPages(rows, size, n) == rows[..Min(n * size, |rows|)]
  {
    hide Paginate, PageCount;
    Product(0, n, size);
    if n > 0 {
      if n > 1 {
        Product(n - 2, n - 1, size);
      }
      PageIsThere(|rows|, size, n - 1);
      FirstPagesLaw(rows, size, n - 1);
      PageLaw(rows, (n - 1) as real, size);
      var lo, hi := (n - 1) * size, Min(n * size, |rows|);
      assert Min(lo, |rows|) == lo;
      assert rows[..lo] + rows[lo..hi] == rows[..hi];
    }
  }

  /** With a page size below one the first page leaves rows out, and the others are empty. */
  lemma {:induction false} BackwardPages<T>(rows: seq<T>, size: int, n: nat)
    requires size < 1 && rows != [] && n <= PageCount(|rows|, size)
    ensures |FirstPages(rows, size, n)| < |rows|
  {
    hide PageCount, Paginate;
    if n > 0 {
      BackwardPages(rows, size, n - 1);
      PageLaw(rows, (n - 1) as real, size);
      if n == 1 {
        assert FirstPages(rows, size, 0) == [];
      }
    }
  }

  /** The pages put together are the rows, in order, exactly when a page holds at least one row. */
  lemma PagesMakeUpRows<T>(rows: seq<T>, size: int)
    ensures AllPages(rows, size) == rows <==> size >= 1 || rows == []
  {
    var n := PageCount(|rows|, size);
    if size >= 1 {
      PageCountLaw(|rows|, size);
      FirstPagesLaw(rows, size, n);
    } else if rows != [] {
      BackwardPages(rows, size, n);
    } else {
      assert FirstPages(rows, size, 0) == [];
    }
  }

  // ---------- Filter, sort and pages together ----------

  lemma {:induction false} FilterAll<T>(keep: T -> bool, rows: seq<T>)
    requires forall r :: r in rows ==> keep(r)
    ensures Filter(keep, rows) == rows
  {
    if rows != [] {
      FilterAll(keep, rows[1..]);
      assert rows == [rows[0]] + rows[1..];
    }
  }

  /** A query without words is no special case: it keeps every row. */
  lemma FilterRowsLaw<T(!new)>(fold: string -> string, rows: seq<T>, query: string, text: T -> string)
    ensures FilterRows(fold, rows, query, text) == Filter(row => Found(fold, query, text, row), rows)
  {
    if Words(fold(query)) == [] {
      FilterAll(row => Found(fold, query, text, row), rows);
    }
  }

  lemma {:induction false} FilterCounts<T>(keep: T -> bool, rows: seq<T>, r: T)
    ensures multiset(Filter(keep, rows))[r] == if keep(r) then multiset(rows)[r] else 0
  {
    if rows != [] {
      FilterCounts(keep, rows[1..], r);
      assert rows == [rows[0]] + rows[1..];
    }
  }

  lemma {:induction false} SameCountsSameLength<T(!new)>(a: seq<T>, b: seq<T>)
    requires forall r :: multiset(a)[r] == multiset(b)[r]
    ensures |a| == |b|
  {
    assert multiset(a) == multiset(b);
    assert |multiset(a)| == |a| && |multiset(b)| == |b|;
  }

  /** Over all pages of the sorted, filtered rows, a row that is found shows as often as it is in the
  data, and any other row not at all; that is, if and only if the page size is at least 1 or nothing
  is found. */
  lemma EveryFoundRowIsShown<T(!new)>(fold: string -> string, c: Collation, rows: seq<T>, query: string, text: T -> string,
                                      value: T -> SortValue, desc: bool, size: int)
    ensures var found := FilterRows(fold, rows, query, text);
      var shown := AllPages(SortRows(c, found, value, desc), size);
      (forall r :: multiset(shown)[r] == if Found(fold, query, text, r) then multiset(rows)[r] else 0)
      <==> size >= 1 || found == []
  {
    hide FilterRows, Found;
    var found := FilterRows(fold, rows, query, text);
    var sorted := SortRows(c, found, value, desc);
    var shown := AllPages(sorted, size);
    FilterRowsLaw(fold, rows, query, text);
    SortKeepsRows(c, desc, Entries(found, value));
    assert Rows(Entries(found, value)) == found;
    assert multiset(sorted) == multiset(found);
    forall r ensures multiset(found)[r] == if Found(fold, query, text, r) then multiset(rows)[r] else 0 {
      FilterCounts(row => Found(fold, query, text, row), rows, r);
    }
    PagesMakeUpRows(sorted, size);
    assert |sorted| == |multiset(sorted)| == |multiset(found)| == |found|;
    if size < 1 && found != [] {
      BackwardPages(sorted, size, PageCount(|sorted|, size));
      if forall r :: multiset(shown)[r] == multiset(found)[r] {
        SameCountsSameLength(shown, found);
      }
    }
  }
}
