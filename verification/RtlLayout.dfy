/** What the class rewriter is for (apps/console/scripts/rtl-codemod.ts): a rewritten class lays out
as before from left to right, and mirrored from right to left. */
module RtlLayout {
  import opened Wrappers
  import opened Rtl
  import opened RtlLaw
  import opened RtlClasses
  import opened JsText

  // ---------- What a utility's name means ----------

  datatype Direction = Ltr | Rtl

  datatype Side = Left | Right

  /** Where on a box: one side of it, or one corner. */
  datatype Edge = Along(side: Side) | Top(side: Side) | Bottom(side: Side)

  datatype Property =
    | Margin | Padding | ScrollMargin | ScrollPadding | Inset | TextAlign | Radius | Border
    | SlideInFrom | SlideOutTo | Float | Clear

  datatype Spot = Spot(property: Property, edge: Edge)

  function Opposite(side: Side): Side {
    if side.Left? then Right else Left
  }

  /** The side where a line starts. */
  function StartSide(dir: Direction): Side {
    if dir.Ltr? then Left else Right
  }

  function SideOfLetter(c: char, dir: Direction): Option<Side> {
    if c == 'l' then Some(Left)
    else if c == 'r' then Some(Right)
    else if c == 's' then Some(StartSide(dir))
    else if c == 'e' then Some(Opposite(StartSide(dir)))
    else None
  }

  function SideOfWord(w: string, dir: Direction): Option<Side> {
    if w == "left" then Some(Left)
    else if w == "right" then Some(Right)
    else if w == "start" then Some(StartSide(dir))
    else if w == "end" then Some(Opposite(StartSide(dir)))
    else None
  }

  /** Top and bottom with left and right, or the start and the end of the block with those of the line. */
  function Corner(a: char, b: char, dir: Direction): Option<Edge> {
    if a == 't' && (b == 'l' || b == 'r') then Some(Top(if b == 'l' then Left else Right))
    else if a == 'b' && (b == 'l' || b == 'r') then Some(Bottom(if b == 'l' then Left else Right))
    else if a == 's' && (b == 's' || b == 'e') then Some(Top(if b == 's' then StartSide(dir) else Opposite(StartSide(dir))))
    else if a == 'e' && (b == 's' || b == 'e') then Some(Bottom(if b == 's' then StartSide(dir) else Opposite(StartSide(dir))))
    else None
  }

  /** A side written as one letter after the stem. */
  function Lettered(property: Property, stem: string, name: string, dir: Direction): Option<Spot> {
    if |name| == |stem| + 1 && stem <= name then
      var side :- SideOfLetter(name[|stem|], dir);
      Some(Spot(property, Along(side)))
    else None
  }

  /** A side written as a word after the stem. */
  function Worded(property: Property, stem: string, name: string, dir: Direction): Option<Spot> {
    if stem <= name then
      var side :- SideOfWord(name[|stem|..], dir);
      Some(Spot(property, Along(side)))
    else None
  }

  function InsetNamed(name: string, dir: Direction): Option<Spot> {
    if name == "left" then Some(Spot(Inset, Along(Left)))
    else if name == "right" then Some(Spot(Inset, Along(Right)))
    else if name == "inset-s" then Some(Spot(Inset, Along(StartSide(dir))))
    else if name == "inset-e" then Some(Spot(Inset, Along(Opposite(StartSide(dir)))))
    else None
  }

  function CornerNamed(name: string, dir: Direction): Option<Spot> {
    if |name| == 10 && "rounded-" <= name then
      var edge :- Corner(name[8], name[9], dir);
      Some(Spot(Radius, edge))
    else None
  }

  /** Whether the name is one for this property, and for which spot. */
  function NamedFor(property: Property, name: string, dir: Direction): Option<Spot> {
    match property
    case Margin => Lettered(property, "m", name, dir)
    case Padding => Lettered(property, "p", name, dir)
    case ScrollMargin => Lettered(property, "scroll-m", name, dir)
    case ScrollPadding => Lettered(property, "scroll-p", name, dir)
    case Inset => InsetNamed(name, dir)
    case TextAlign => Worded(property, "text-", name, dir)
    case Radius => if |name| == 9 then Lettered(property, "rounded-", name, dir) else CornerNamed(name, dir)
    case Border => Lettered(property, "border-", name, dir)
    case SlideInFrom => Worded(property, "slide-in-from-", name, dir)
    case SlideOutTo => Worded(property, "slide-out-to-", name, dir)
    case Float => Worded(property, "float-", name, dir)
    case Clear => Worded(property, "clear-", name, dir)
  }

  /** What follows a name: a value that must be there, one that may be, or nothing. */
  predicate ValueFits(property: Property, value: string) {
    match property
    case TextAlign | Float | Clear => value == ""
    case Radius | Border | SlideInFrom | SlideOutTo => value == "" || (|value| >= 2 && value[0] == '-')
    case _ => |value| >= 2 && value[0] == '-'
  }

  datatype Place = Place(spot: Spot, value: string)

  /** A utility without its signs says this. */
  ghost predicate Means(core: string, dir: Direction, p: Place) {
    exists n :: 0 <= n <= |core| && core[n..] == p.value && NamedFor(p.spot.property, core[..n], dir) == Some(p.spot)
                && ValueFits(p.spot.property, p.value)
  }

  function MirrorEdge(edge: Edge): Edge {
    match edge
    case Along(side) => Along(Opposite(side))
    case Top(side) => Top(Opposite(side))
    case Bottom(side) => Bottom(Opposite(side))
  }

  function Mirror(p: Place): Place {
    Place(Spot(p.spot.property, MirrorEdge(p.spot.edge)), p.value)
  }

  // ---------- What the rows of the rules mean ----------

  /** The four names of a row are for one property: the left one and the start one say its edge e from
  left to right, the others the mirrored edge, and from right to left the logical ones are mirrored. */
  predicate RowNames(rule: Rule, p: Property, e: Edge) {
    && (forall dir :: NamedFor(p, rule.left, dir) == Some(Spot(p, e)))
    && (forall dir :: NamedFor(p, rule.right, dir) == Some(Spot(p, MirrorEdge(e))))
    && NamedFor(p, rule.start, Ltr) == Some(Spot(p, e)) && NamedFor(p, rule.start, Direction.Rtl) == Some(Spot(p, MirrorEdge(e)))
    && NamedFor(p, rule.end, Ltr) == Some(Spot(p, MirrorEdge(e))) && NamedFor(p, rule.end, Direction.Rtl) == Some(Spot(p, e))
  }

  lemma MarginNames()
    ensures RowNames(Rule("ml", "ms", "mr", "me", Value), Margin, Along(Left))
  {
  }

  lemma PaddingNames()
    ensures RowNames(Rule("pl", "ps", "pr", "pe", Value), Padding, Along(Left))
  {
  }

  lemma ScrollMarginNames()
    ensures RowNames(Rule("scroll-ml", "scroll-ms", "scroll-mr", "scroll-me", Value), ScrollMargin, Along(Left))
  {
  }

  lemma ScrollPaddingNames()
    ensures RowNames(Rule("scroll-pl", "scroll-ps", "scroll-pr", "scroll-pe", Value), ScrollPadding, Along(Left))
  {
  }

  lemma InsetNames()
    ensures RowNames(Rule("left", "inset-s", "right", "inset-e", Value), Inset, Along(Left))
  {
  }

  lemma TextAlignNames()
    ensures RowNames(Rule("text-left", "text-start", "text-right", "text-end", Nothing), TextAlign, Along(Left))
  {
  }

  lemma RadiusSideNames()
    ensures RowNames(Rule("rounded-l", "rounded-s", "rounded-r", "rounded-e", Optional), Radius, Along(Left))
  {
  }

  lemma RadiusTopNames()
    ensures RowNames(Rule("rounded-tl", "rounded-ss", "rounded-tr", "rounded-se", Optional), Radius, Top(Left))
  {
  }

  lemma RadiusBottomNames()
    ensures RowNames(Rule("rounded-bl", "rounded-es", "rounded-br", "rounded-ee", Optional), Radius, Bottom(Left))
  {
  }

  lemma BorderNames()
    ensures RowNames(Rule("border-l", "border-s", "border-r", "border-e", Optional), Border, Along(Left))
  {
  }

  lemma SlideInNames()
    ensures RowNames(Rule("slide-in-from-left", "slide-in-from-start", "slide-in-from-right", "slide-in-from-end", Optional), SlideInFrom, Along(Left))
  {
  }

  lemma SlideOutNames()
    ensures RowNames(Rule("slide-out-to-left", "slide-out-to-start", "slide-out-to-right", "slide-out-to-end", Optional), SlideOutTo, Along(Left))
  {
  }

  lemma FloatNames()
    ensures RowNames(Rule("float-left", "float-start", "float-right", "float-end", Nothing), Float, Along(Left))
  {
  }

  lemma ClearNames()
    ensures RowNames(Rule("clear-left", "clear-start", "clear-right", "clear-end", Nothing), Clear, Along(Left))
  {
  }

  /** What each row is for. */
  lemma RowIsFor(i: nat) returns (p: Property, e: Edge)
    requires i < |RULES|
    ensures RowNames(RULES[i], p, e)
    ensures forall v: string :: ValueFits(p, v) <==> RULES[i].TailOk(v)
  {
    hide NamedFor, RowNames;
    if i == 0 {
      MarginNames();
      p, e := Margin, Along(Left);
    } else if i == 1 {
      PaddingNames();
      p, e := Padding, Along(Left);
    } else if i == 2 {
      ScrollMarginNames();
      p, e := ScrollMargin, Along(Left);
    } else if i == 3 {
      ScrollPaddingNames();
      p, e := ScrollPadding, Along(Left);
    } else if i == 4 {
      InsetNames();
      p, e := Inset, Along(Left);
    } else if i == 5 {
      TextAlignNames();
      p, e := TextAlign, Along(Left);
    } else if i == 6 {
      RadiusSideNames();
      p, e := Radius, Along(Left);
    } else if i == 7 {
      RadiusTopNames();
      p, e := Radius, Top(Left);
    } else if i == 8 {
      RadiusBottomNames();
      p, e := Radius, Bottom(Left);
    } else if i == 9 {
      BorderNames();
      p, e := Border, Along(Left);
    } else if i == 10 {
      SlideInNames();
      p, e := SlideInFrom, Along(Left);
    } else if i == 11 {
      SlideOutNames();
      p, e := SlideOutTo, Along(Left);
    } else if i == 12 {
      FloatNames();
      p, e := Float, Along(Left);
    } else if i == 13 {
      ClearNames();
      p, e := Clear, Along(Left);
    } else {
      assert false;
    }
  }

  // ---------- A utility says one thing ----------

  /** Which property a utility can be for, by its first letters. */
  function PropertyOf(core: string): Option<Property> {
    if core == "" then None
    else if core[0] == 'm' then Some(Margin)
    else if core[0] == 'p' then Some(Padding)
    else if core[0] == 'l' || core[0] == 'i' then Some(Inset)
    else if core[0] == 't' then Some(TextAlign)
    else if core[0] == 'b' then Some(Border)
    else if core[0] == 'f' then Some(Float)
    else if core[0] == 'c' then Some(Clear)
    else if core[0] == 'r' then if At(core, 1, 'i') then Some(Inset) else Some(Radius)
    else if core[0] != 's' then None
    else if At(core, 1, 'c') then if At(core, 7, 'm') then Some(ScrollMargin) else Some(ScrollPadding)
    else if At(core, 6, 'i') then Some(SlideInFrom) else Some(SlideOutTo)
  }

  function WordLength(core: string, k: nat): nat {
    if At(core, k, 'l') then 4 else if At(core, k, 'e') then 3 else 5
  }

  /** How long the name is at the front of the utility. */
  function NameLength(p: Property, core: string): nat {
    match p
    case Margin | Padding => 2
    case ScrollMargin | ScrollPadding => 9
    case Inset => if At(core, 0, 'l') then 4 else if At(core, 0, 'r') then 5 else 7
    case TextAlign => 5 + WordLength(core, 5)
    case Radius => if |core| <= 9 || core[9] == '-' then 9 else 10
    case Border => 8
    case SlideInFrom => 14 + WordLength(core, 14)
    case SlideOutTo => 13 + WordLength(core, 13)
    case Float | Clear => 6 + WordLength(core, 6)
  }

  lemma LetteredFront(stem: string, p: Property, name: string, rest: string, dir: Direction)
    requires Lettered(p, stem, name, dir).Some?
    ensures |name| == |stem| + 1 && stem <= name + rest
  {
  }

  lemma WordedFront(stem: string, p: Property, name: string, rest: string, dir: Direction)
    requires Worded(p, stem, name, dir).Some?
    ensures |name| == |stem| + WordLength(name + rest, |stem|) && stem <= name + rest
  {
    var w := name[|stem|..];
    assert name == stem + w;
    assert w == "left" || w == "right" || w == "start" || w == "end";
    assert (name + rest)[|stem|] == w[0];
  }

  lemma InsetFront(name: string, rest: string, dir: Direction)
    requires InsetNamed(name, dir).Some?
    ensures PropertyOf(name + rest) == Some(Inset) && |name| == NameLength(Inset, name + rest)
  {
  }

  lemma RadiusFront(name: string, rest: string, dir: Direction)
    requires NamedFor(Radius, name, dir).Some? && ValueFits(Radius, rest)
    ensures PropertyOf(name + rest) == Some(Radius) && |name| == NameLength(Radius, name + rest)
  {
  }

  lemma NameFront(p: Property, name: string, rest: string, dir: Direction)
    requires NamedFor(p, name, dir).Some? && ValueFits(p, rest)
    ensures PropertyOf(name + rest) == Some(p) && |name| == NameLength(p, name + rest)
  {
    hide Lettered, Worded, InsetNamed, CornerNamed, WordLength;
    match p
    case Margin => LetteredFront("m", p, name, rest, dir);
    case Padding => LetteredFront("p", p, name, rest, dir);
    case ScrollMargin => ScrollFront(p, "scroll-m", name, rest, dir);
    case ScrollPadding => ScrollFront(p, "scroll-p", name, rest, dir);
    case Inset => InsetFront(name, rest, dir);
    case TextAlign => WordedFront("text-", p, name, rest, dir);
    case Radius => RadiusFront(name, rest, dir);
    case Border => LetteredFront("border-", p, name, rest, dir);
    case SlideInFrom => WordedFront("slide-in-from-", p, name, rest, dir);
    case SlideOutTo => WordedFront("slide-out-to-", p, name, rest, dir);
    case Float => WordedFront("float-", p, name, rest, dir);
    case Clear => WordedFront("clear-", p, name, rest, dir);
  }

  lemma ScrollFront(p: Property, stem: string, name: string, rest: string, dir: Direction)
    requires Lettered(p, stem, name, dir).Some? && (stem == "scroll-m" || stem == "scroll-p")
    ensures |name| == 9 && PropertyOf(name + rest) == if stem == "scroll-m" then Some(ScrollMargin) else Some(ScrollPadding)
  {
    LetteredFront(stem, p, name, rest, dir);
    assert (name + rest)[7] == stem[7] && (name + rest)[0] == stem[0] && (name + rest)[1] == stem[1];
  }

  /** Two readings of a utility, in either direction, take the same name for the same property. */
  lemma OneReading(core: string, p: Property, n: nat, d: Direction, q: Property, m: nat, e: Direction)
    requires n <= |core| && NamedFor(p, core[..n], d).Some? && ValueFits(p, core[n..])
    requires m <= |core| && NamedFor(q, core[..m], e).Some? && ValueFits(q, core[m..])
    ensures p == q && n == m
  {
    hide NamedFor, ValueFits, PropertyOf, NameLength;
    assert core == core[..n] + core[n..] == core[..m] + core[m..];
    NameFront(p, core[..n], core[n..], d);
    NameFront(q, core[..m], core[m..], e);
  }

  /** A utility says one thing at most. */
  lemma MeansOne(core: string, dir: Direction, p: Place, q: Place)
    requires Means(core, dir, p) && Means(core, dir, q)
    ensures p == q
  {
    hide NamedFor, ValueFits;
    var n :| 0 <= n <= |core| && core[n..] == p.value && NamedFor(p.spot.property, core[..n], dir) == Some(p.spot)
             && ValueFits(p.spot.property, p.value);
    var m :| 0 <= m <= |core| && core[m..] == q.value && NamedFor(q.spot.property, core[..m], dir) == Some(q.spot)
             && ValueFits(q.spot.property, q.value);
    OneReading(core, p.spot.property, n, dir, q.spot.property, m, dir);
  }

  // ---------- Every physical name has its row ----------

  function Other(dir: Direction): Direction {
    if dir.Ltr? then Direction.Rtl else Ltr
  }

  function MirrorSpot(s: Spot): Spot {
    Spot(s.property, MirrorEdge(s.edge))
  }

  /** The name is a physical one of the i-th row. */
  predicate PhysicalIn(i: nat, name: string) {
    i < |RULES| && (name == RULES[i].left || name == RULES[i].right)
  }

  /** The name is mirrored with the direction, or the rules have a row for it. */
  ghost predicate MirroredOrRow(p: Property, name: string, dir: Direction)
    requires NamedFor(p, name, dir).Some?
  {
    || NamedFor(p, name, Other(dir)) == Some(MirrorSpot(NamedFor(p, name, dir).value))
    || exists i: nat :: PhysicalIn(i, name) && forall v: string :: ValueFits(p, v) <==> RULES[i].TailOk(v)
  }

  lemma LetterSide(stem: string, p: Property, name: string, dir: Direction)
    requires Lettered(p, stem, name, dir).Some?
    ensures || Lettered(p, stem, name, Other(dir)) == Some(MirrorSpot(Lettered(p, stem, name, dir).value))
            || name == stem + "l" || name == stem + "r"
  {
    assert name == stem + [name[|stem|]];
  }

  lemma WordSide(stem: string, p: Property, name: string, dir: Direction)
    requires Worded(p, stem, name, dir).Some?
    ensures || Worded(p, stem, name, Other(dir)) == Some(MirrorSpot(Worded(p, stem, name, dir).value))
            || name == stem + "left" || name == stem + "right"
  {
    assert name == stem + name[|stem|..];
  }

  lemma InsetSide(name: string, dir: Direction)
    requires InsetNamed(name, dir).Some?
    ensures InsetNamed(name, Other(dir)) == Some(MirrorSpot(InsetNamed(name, dir).value)) || name == "left" || name == "right"
  {
  }

  lemma CornerSide(name: string, dir: Direction)
    requires CornerNamed(name, dir).Some?
    ensures || CornerNamed(name, Other(dir)) == Some(MirrorSpot(CornerNamed(name, dir).value))
            || name == "rounded-tl" || name == "rounded-tr" || name == "rounded-bl" || name == "rounded-br"
  {
    assert name == "rounded-" + [name[8], name[9]];
  }

  lemma MarginHasRow(name: string, dir: Direction)
    requires NamedFor(Margin, name, dir).Some?
    ensures MirroredOrRow(Margin, name, dir)
  {
    hide Lettered;
    LetterSide("m", Margin, name, dir);
    assert RULES[0].left == "m" + "l" && RULES[0].right == "m" + "r";
    assert PhysicalIn(0, RULES[0].left) && PhysicalIn(0, RULES[0].right);
  }

  lemma PaddingHasRow(name: string, dir: Direction)
    requires NamedFor(Padding, name, dir).Some?
    ensures MirroredOrRow(Padding, name, dir)
  {
    hide Lettered;
    LetterSide("p", Padding, name, dir);
    assert RULES[1].left == "p" + "l" && RULES[1].right == "p" + "r";
    assert PhysicalIn(1, RULES[1].left) && PhysicalIn(1, RULES[1].right);
  }

  lemma ScrollMarginHasRow(name: string, dir: Direction)
    requires NamedFor(ScrollMargin, name, dir).Some?
    ensures MirroredOrRow(ScrollMargin, name, dir)
  {
    hide Lettered;
    LetterSide("scroll-m", ScrollMargin, name, dir);
    assert RULES[2].left == "scroll-m" + "l" && RULES[2].right == "scroll-m" + "r";
    assert PhysicalIn(2, RULES[2].left) && PhysicalIn(2, RULES[2].right);
  }

  lemma ScrollPaddingHasRow(name: string, dir: Direction)
    requires NamedFor(ScrollPadding, name, dir).Some?
    ensures MirroredOrRow(ScrollPadding, name, dir)
  {
    hide Lettered;
    LetterSide("scroll-p", ScrollPadding, name, dir);
    assert RULES[3].left == "scroll-p" + "l" && RULES[3].right == "scroll-p" + "r";
    assert PhysicalIn(3, RULES[3].left) && PhysicalIn(3, RULES[3].right);
  }

  lemma BorderHasRow(name: string, dir: Direction)
    requires NamedFor(Border, name, dir).Some?
    ensures MirroredOrRow(Border, name, dir)
  {
    hide Lettered;
    LetterSide("border-", Border, name, dir);
    assert RULES[9].left == "border-" + "l" && RULES[9].right == "border-" + "r";
    assert PhysicalIn(9, RULES[9].left) && PhysicalIn(9, RULES[9].right);
  }

  lemma TextAlignHasRow(name: string, dir: Direction)
    requires NamedFor(TextAlign, name, dir).Some?
    ensures MirroredOrRow(TextAlign, name, dir)
  {
    hide Worded;
    WordSide("text-", TextAlign, name, dir);
    assert RULES[5].left == "text-" + "left" && RULES[5].right == "text-" + "right";
    assert PhysicalIn(5, RULES[5].left) && PhysicalIn(5, RULES[5].right);
  }

  lemma SlideInFromHasRow(name: string, dir: Direction)
    requires NamedFor(SlideInFrom, name, dir).Some?
    ensures MirroredOrRow(SlideInFrom, name, dir)
  {
    hide Worded;
    WordSide("slide-in-from-", SlideInFrom, name, dir);
    assert RULES[10].left == "slide-in-from-" + "left" && RULES[10].right == "slide-in-from-" + "right";
    assert PhysicalIn(10, RULES[10].left) && PhysicalIn(10, RULES[10].right);
  }

  lemma SlideOutToHasRow(name: string, dir: Direction)
    requires NamedFor(SlideOutTo, name, dir).Some?
    ensures MirroredOrRow(SlideOutTo, name, dir)
  {
    hide Worded;
    WordSide("slide-out-to-", SlideOutTo, name, dir);
    assert RULES[11].left == "slide-out-to-" + "left" && RULES[11].right == "slide-out-to-" + "right";
    assert PhysicalIn(11, RULES[11].left) && PhysicalIn(11, RULES[11].right);
  }

  lemma FloatHasRow(name: string, dir: Direction)
    requires NamedFor(Float, name, dir).Some?
    ensures MirroredOrRow(Float, name, dir)
  {
    hide Worded;
    WordSide("float-", Float, name, dir);
    assert RULES[12].left == "float-" + "left" && RULES[12].right == "float-" + "right";
    assert PhysicalIn(12, RULES[12].left) && PhysicalIn(12, RULES[12].right);
  }

  lemma ClearHasRow(name: string, dir: Direction)
    requires NamedFor(Clear, name, dir).Some?
    ensures MirroredOrRow(Clear, name, dir)
  {
    hide Worded;
    WordSide("clear-", Clear, name, dir);
    assert RULES[13].left == "clear-" + "left" && RULES[13].right == "clear-" + "right";
    assert PhysicalIn(13, RULES[13].left) && PhysicalIn(13, RULES[13].right);
  }

  lemma InsetHasRow(name: string, dir: Direction)
    requires NamedFor(Inset, name, dir).Some?
    ensures MirroredOrRow(Inset, name, dir)
  {
    hide InsetNamed;
    InsetSide(name, dir);
    assert PhysicalIn(4, "left") && PhysicalIn(4, "right");
  }

  lemma RadiusHasRow(name: string, dir: Direction)
    requires NamedFor(Radius, name, dir).Some?
    ensures MirroredOrRow(Radius, name, dir)
  {
    hide Lettered, CornerNamed;
    if |name| == 9 {
      LetterSide("rounded-", Radius, name, dir);
      assert RULES[6].left == "rounded-" + "l" && RULES[6].right == "rounded-" + "r";
      assert PhysicalIn(6, RULES[6].left) && PhysicalIn(6, RULES[6].right);
    } else {
      CornerSide(name, dir);
      assert PhysicalIn(7, "rounded-tl") && PhysicalIn(7, "rounded-tr");
      assert PhysicalIn(8, "rounded-bl") && PhysicalIn(8, "rounded-br");
    }
  }

  lemma EveryNameHasRow(p: Property, name: string, dir: Direction)
    requires NamedFor(p, name, dir).Some?
    ensures MirroredOrRow(p, name, dir)
  {
    hide NamedFor, MirroredOrRow;
    match p
    case Inset => InsetHasRow(name, dir);
    case Radius => RadiusHasRow(name, dir);
    case Margin => MarginHasRow(name, dir);
    case Padding => PaddingHasRow(name, dir);
    case ScrollMargin => ScrollMarginHasRow(name, dir);
    case ScrollPadding => ScrollPaddingHasRow(name, dir);
    case Border => BorderHasRow(name, dir);
    case TextAlign => TextAlignHasRow(name, dir);
    case SlideInFrom => SlideInFromHasRow(name, dir);
    case SlideOutTo => SlideOutToHasRow(name, dir);
    case Float => FloatHasRow(name, dir);
    case Clear => ClearHasRow(name, dir);
  }

  // ---------- One utility ----------

  lemma {:induction false} MatchFrom(core: string, i: nat) returns (k: nat)
    requires i <= |RULES| && FirstMatch(core, RULES[i..]).Some?
    ensures k < |RULES| && RULES[k].Apply(core) == FirstMatch(core, RULES[i..])
    decreases |RULES| - i
  {
    hide RULES, Rule.Apply;
    assert RULES[i..][0] == RULES[i] && RULES[i..][1..] == RULES[i + 1..];
    if RULES[i].Apply(core).Some? {
      k := i;
    } else {
      k := MatchFrom(core, i + 1);
    }
  }

  lemma {:induction false} SomeMatch(core: string, i: nat, k: nat)
    requires i <= k < |RULES| && RULES[k].Apply(core).Some?
    ensures FirstMatch(core, RULES[i..]).Some?
    decreases k - i
  {
    hide RULES, Rule.Apply;
    assert RULES[i..][0] == RULES[i] && RULES[i..][1..] == RULES[i + 1..];
    if i < k {
      SomeMatch(core, i + 1, k);
    }
  }

  lemma OnlyMeans(name: string, rest: string, dir: Direction, spot: Spot)
    requires NamedFor(spot.property, name, dir) == Some(spot) && ValueFits(spot.property, rest)
    ensures forall p :: Means(name + rest, dir, p) <==> p == Place(spot, rest)
  {
    hide NamedFor, ValueFits;
    var core := name + rest;
    assert core[..|name|] == name && core[|name|..] == rest;
    assert Means(core, dir, Place(spot, rest));
    forall p | Means(core, dir, p) ensures p == Place(spot, rest) {
      MeansOne(core, dir, p, Place(spot, rest));
    }
  }

  /** A match keeps what a utility says from left to right, and has it mirrored from right to left. */
  lemma MatchMeans(core: string, k: nat)
    requires k < |RULES| && RULES[k].Apply(core).Some?
    ensures forall p :: Means(RULES[k].Apply(core).value, Ltr, p) <==> Means(core, Ltr, p)
    ensures forall p :: Means(RULES[k].Apply(core).value, Ltr, p) <==> Means(RULES[k].Apply(core).value, Direction.Rtl, Mirror(p))
  {
    hide NamedFor, ValueFits, Means, RULES;
    var rule := RULES[k];
    var p, e := RowIsFor(k);
    var onLeft := rule.left <= core && rule.TailOk(core[|rule.left|..]);
    var old_, new_ := if onLeft then rule.left else rule.right, if onLeft then rule.start else rule.end;
    var rest := core[|old_|..];
    var spot := Spot(p, if onLeft then e else MirrorEdge(e));
    assert core == old_ + rest && rule.Apply(core) == Some(new_ + rest);
    OnlyMeans(old_, rest, Ltr, spot);
    OnlyMeans(new_, rest, Ltr, spot);
    OnlyMeans(new_, rest, Direction.Rtl, MirrorSpot(spot));
    hide RowNames, Rule.Apply;
    assert forall x: Place :: Mirror(x) == Place(MirrorSpot(spot), rest) <==> x == Place(spot, rest);
  }

  /** What no rule matches is mirrored already. */
  lemma UnmatchedIsMirrored(core: string, dir: Direction, p: Place)
    requires FirstMatch(core, RULES) == None && Means(core, dir, p)
    ensures Means(core, Other(dir), Mirror(p))
  {
    hide NamedFor, ValueFits, RULES, FirstMatch, Rule.TailOk;
    var q := p.spot.property;
    var n :| 0 <= n <= |core| && core[n..] == p.value && NamedFor(q, core[..n], dir) == Some(p.spot) && ValueFits(q, p.value);
    EveryNameHasRow(q, core[..n], dir);
    if i: nat :| PhysicalIn(i, core[..n]) && forall v: string :: ValueFits(q, v) <==> RULES[i].TailOk(v) {
      assert RULES[i].TailOk(core[n..]);
      assert RULES[0..] == RULES;
      SomeMatch(core, 0, i);
    } else {
      assert core[n..] == Mirror(p).value;
    }
  }

  // ---------- One token ----------

  /** A variant for the side that a popper was placed on, or the direction a drawer is dragged in. */
  ghost predicate PlacedPhysically(variants: seq<string>) {
    || (exists v :: v in variants && "data-[side=" <= v)
    || exists a, b :: a + "vaul-drawer-direction" + b in variants
  }

  lemma PlacedIsContext(variants: seq<string>)
    ensures PlacedPhysically(variants) <==> PhysicalContext(variants)
  {
    if PhysicalContext(variants) {
      var i :| 0 <= i < |variants| && ("data-[side=" <= variants[i] || Includes(variants[i], "vaul-drawer-direction"));
      assert variants[i] in variants;
      if Includes(variants[i], "vaul-drawer-direction") {
        IncludesParts(variants[i], "vaul-drawer-direction");
      }
    }
    if a, b :| a + "vaul-drawer-direction" + b in variants {
      PartsInclude(a, "vaul-drawer-direction", b);
    }
  }

  /** The core of a token that a rule matches. */
  lemma MatchedToken(token: string) returns (core: string)
    requires !PhysicalContext(SplitOf(token).variants) && FirstMatch(SignOf(SplitOf(token).utility).core, RULES).Some?
    ensures FirstMatch(SignOf(SplitOf(token).utility).core, RULES) == Some(core)
    ensures var t := SplitOf(token); var s := SignOf(t.utility);
      SplitOf(Logical(token)).variants == t.variants
      && SignOf(SplitOf(Logical(token)).utility) == Signed(s.pre, core, s.post)
  {
    hide SignOf, Swap, Physical, PhysicalContext, Join, FirstMatch, SplitOf, RULES;
    var t := SplitOf(token);
    var s := SignOf(t.utility);
    assert RULES[0..] == RULES;
    var old_, new_ := MatchLaw(s.core, 0);
    var rest := s.core[|old_|..];
    core := new_ + rest;
    assert s.core == old_ + rest;
    SignLaw(t.utility);
    SwappedSign(s, old_, new_, rest);
    UtilityOfSplit(token);
    RewrittenIsOnePart(s.pre, old_, new_, rest, s.post);
    SplitReplaced(token, s.pre + (new_ + rest) + s.post);
  }

  lemma UtilityOfSplit(token: string)
    ensures OnePart(SplitOf(token).utility, 0)
  {
    UtilityIsOnePart(token, 0);
  }

  /** For every token: it keeps its variants and signs; from left to right it says what it said; from
  right to left it says the mirrored thing, unless a variant makes it physical. */
  lemma LaysOut(token: string)
    ensures var t, u := SplitOf(token), SplitOf(Logical(token));
      var s, r := SignOf(t.utility), SignOf(u.utility);
      && u.variants == t.variants && r.pre == s.pre && r.post == s.post
      && (forall p :: Means(r.core, Ltr, p) <==> Means(s.core, Ltr, p))
      && (if PlacedPhysically(t.variants) then Logical(token) == token
          else forall p :: Means(r.core, Ltr, p) <==> Means(r.core, Direction.Rtl, Mirror(p)))
  {
    hide SignOf, PhysicalContext, PlacedPhysically, Join, FirstMatch, SplitOf, Means, RULES;
    var s := SignOf(SplitOf(token).utility);
    PlacedIsContext(SplitOf(token).variants);
    if !PhysicalContext(SplitOf(token).variants) {
      if FirstMatch(s.core, RULES).Some? {
        var core := MatchedToken(token);
        assert RULES[0..] == RULES;
        var k := MatchFrom(s.core, 0);
        MatchMeans(s.core, k);
      } else {
        Unmatched(s.core);
      }
    }
  }

  lemma Unmatched(core: string)
    requires FirstMatch(core, RULES) == None
    ensures forall p :: Means(core, Ltr, p) <==> Means(core, Direction.Rtl, Mirror(p))
  {
    hide FirstMatch, Means, RULES;
    forall p ensures Means(core, Ltr, p) <==> Means(core, Direction.Rtl, Mirror(p)) {
      if Means(core, Ltr, p) {
        UnmatchedIsMirrored(core, Ltr, p);
      }
      if Means(core, Direction.Rtl, Mirror(p)) {
        UnmatchedIsMirrored(core, Direction.Rtl, Mirror(p));
        assert Mirror(Mirror(p)) == p;
      }
    }
  }

  // ---------- The parts of a token ----------

  function Opened(s: string): int {
    var opening, closing: int := multiset(s)['['] + multiset(s)['('], multiset(s)[']'] + multiset(s)[')'];
    opening - closing
  }

  /** A colon of the part with as many closed brackets before it as open ones. */
  predicate FreeColon(part: string, depth: int, i: nat) {
    i < |part| && part[i] == ':' && depth + Opened(part[..i]) == 0
  }

  lemma OpenedStep(c: char, s: string)
    ensures Opened([c] + s) == DepthAfter(c, 0) + Opened(s)
  {
  }

  lemma FreeColonStep(c: char, part: string, depth: int, i: nat)
    ensures FreeColon([c] + part, depth, i + 1) <==> FreeColon(part, DepthAfter(c, depth), i)
  {
    if i < |part| {
      assert ([c] + part)[..i + 1] == [c] + part[..i];
      OpenedStep(c, part[..i]);
    }
  }

  /** No colon inside the part is free, and its brackets are closed if a colon follows it. */
  ghost predicate IsPart(part: string, depth: int, last: bool) {
    (forall i: nat :: !FreeColon(part, depth, i)) && (last || depth + Opened(part) == 0)
  }

  ghost predicate Cut(ps: seq<string>, depth: int) {
    && ps != [] && IsPart(ps[0], depth, |ps| == 1)
    && forall k :: 0 < k < |ps| ==> IsPart(ps[k], 0, k == |ps| - 1)
  }

  lemma {:induction false} PartsAreCut(t: string, depth: int)
    ensures Cut(Parts(t, depth), depth)
  {
    hide IsPart;
    if t == "" {
      NoFreeColon(depth);
    } else if t[0] == ':' && depth == 0 {
      PartsAreCut(t[1..], 0);
      NoFreeColon(0);
    } else {
      PartsAreCut(t[1..], DepthAfter(t[0], depth));
      var ps := Parts(t[1..], DepthAfter(t[0], depth));
      FirstGrows(t[0], ps[0], depth, |ps| == 1);
    }
  }

  lemma NoFreeColon(depth: int)
    ensures IsPart("", depth, true) && IsPart("", 0, false)
  {
  }

  lemma FirstGrows(c: char, part: string, depth: int, last: bool)
    requires IsPart(part, DepthAfter(c, depth), last) && !(c == ':' && depth == 0)
    ensures IsPart([c] + part, depth, last)
  {
    hide FreeColon, Opened;
    forall i: nat ensures !FreeColon([c] + part, depth, i) {
      if i > 0 {
        FreeColonStep(c, part, depth, i - 1);
      } else {
        FirstIsNotFree(c, part, depth);
      }
    }
    OpenedStep(c, part);
    assert DepthAfter(c, depth) == depth + DepthAfter(c, 0);
  }

  lemma FirstIsNotFree(c: char, s: string, depth: int)
    requires !(c == ':' && depth == 0)
    ensures !FreeColon([c] + s, depth, 0)
  {
    assert ([c] + s)[..0] == "";
  }

  /** A token is cut at its colons outside of brackets, and nowhere else. */
  lemma SplitCuts(token: string)
    ensures var t := SplitOf(token); Cut(t.variants + [t.utility], 0) && token == Join(t.variants + [t.utility])
  {
    hide Parts, Cut, Join;
    PartsAreCut(token, 0);
    SplitJoins(token);
    var ps := Parts(token, 0);
    assert ps == ps[..|ps| - 1] + [ps[|ps| - 1]];
  }

  /** The signs of a utility: a ! and then a - in front, and a ! behind, as far as they are there. */
  lemma SignIs(u: string, s: Signed)
    ensures SignOf(u) == s <==>
      && u == s.pre + s.core + s.post && s.pre in {"", "!", "-", "!-"} && s.post in {"", "!"}
      && (s.pre == "" ==> u == "" || (u[0] != '!' && u[0] != '-'))
      && (s.pre == "!" ==> |u| == 1 || u[1] != '-')
      && (s.post == "" ==> s.core == "" || s.core[|s.core| - 1] != '!')
  {
    SignLaw(u);
    if u == s.pre + s.core + s.post && s.pre in {"", "!", "-", "!-"} && s.post in {"", "!"}
       && (s.pre == "" ==> u == "" || (u[0] != '!' && u[0] != '-')) && (s.pre == "!" ==> |u| == 1 || u[1] != '-')
       && (s.post == "" ==> s.core == "" || s.core[|s.core| - 1] != '!')
    {
      SignIsOnly(u, s);
    }
    PreIs(u);
  }

  lemma PreIs(u: string)
    ensures PreOf(u) == "" ==> u == "" || (u[0] != '!' && u[0] != '-')
    ensures PreOf(u) == "!" ==> |u| == 1 || u[1] != '-'
  {
  }

  lemma PreIsOnly(u: string, pre: string, w: string)
    requires u == pre + w && pre in {"", "!", "-", "!-"}
    requires pre == "" ==> u == "" || (u[0] != '!' && u[0] != '-')
    requires pre == "!" ==> |u| == 1 || u[1] != '-'
    ensures PreOf(u) == pre
  {
  }

  lemma SignIsOnly(u: string, s: Signed)
    requires u == s.pre + s.core + s.post && s.pre in {"", "!", "-", "!-"} && s.post in {"", "!"}
    requires s.pre == "" ==> u == "" || (u[0] != '!' && u[0] != '-')
    requires s.pre == "!" ==> |u| == 1 || u[1] != '-'
    requires s.post == "" ==> s.core == "" || s.core[|s.core| - 1] != '!'
    ensures SignOf(u) == s
  {
    var w := s.core + s.post;
    assert u == s.pre + w;
    PreIsOnly(u, s.pre, w);
    hide PreOf;
    assert u[|s.pre|..] == w;
    if s.post == "!" {
      assert w[..|w| - 1] == s.core;
    } else {
      assert w == s.core;
    }
  }

  // ---------- A whole class string ----------

  /** The token moves its element along the line, in both directions alike: a translate-x by something
  other than 0, under no variant that is physical or for one direction. */
  ghost predicate Moves(token: string) {
    var t := SplitOf(token);
    && !PlacedPhysically(t.variants) && "rtl" !in t.variants && "ltr" !in t.variants
    && exists value :: SignOf(t.utility).core == "translate-x-" + value && value != "" && value != "0"
  }

  /** The twin is for right to left and otherwise for the same states, as important as the token, and
  moves as far, the other way; but for a literal with two minus signs. */
  ghost predicate IsTwin(token: string, twin: string) {
    var t, u := SplitOf(token), SplitOf(twin);
    var s, r := SignOf(t.utility), SignOf(u.utility);
    && u.variants == ["rtl"] + t.variants && r.post == s.post && (At(r.pre, 0, '!') <==> At(s.pre, 0, '!'))
    && TRANSLATE <= s.core && TRANSLATE <= r.core
    && (!DoubleMinus(s.core[|TRANSLATE|..]) ==> Negative(r) == !Negative(s) && Distance(r) == Distance(s))
  }

  /** The token moves along the line from right to left already: somewhere a variant rtl: begins, and a
  translate-x is behind it. */
  ghost predicate MovesForRtl(token: string) {
    exists a, b, c :: token == a + "rtl:" + b + "translate-x" + c && (a == "" || a[|a| - 1] == ':')
  }

  lemma MovesForRtlIs(token: string)
    ensures MovesForRtl(token) <==> HasRtlTranslate(token)
  {
    if MovesForRtl(token) {
      var a, b, c :| token == a + "rtl:" + b + "translate-x" + c && (a == "" || a[|a| - 1] == ':');
      MovesIsFound(a, b, c);
    }
    if HasRtlTranslate(token) {
      FoundMoves(token);
    }
  }

  lemma Regrouped(a: string, p: string, b: string, q: string, c: string)
    ensures a + p + b + q + c == a + (p + (b + q + c))
  {
  }

  lemma Behind(a: string, m: string)
    ensures (a + m)[|a|..] == m
  {
  }

  lemma MovesIsFound(a: string, b: string, c: string)
    requires a == "" || a[|a| - 1] == ':'
    ensures HasRtlTranslate(a + "rtl:" + b + "translate-x" + c)
  {
    hide Includes;
    var rest := b + "translate-x" + c;
    var m := "rtl:" + rest;
    Regrouped(a, "rtl:", b, "translate-x", c);
    Behind(a, m);
    Behind("rtl:", rest);
    PartsInclude(b, "translate-x", c);
    FoundAt(a + m, |a|, rest);
  }

  lemma FoundAt(token: string, i: nat, rest: string)
    requires i <= |token| && (i == 0 || token[i - 1] == ':') && "rtl:" <= token[i..] && token[i..][4..] == rest
    requires Includes(rest, "translate-x")
    ensures HasRtlTranslate(token)
  {
    hide Includes;
  }

  lemma FoundMoves(token: string)
    requires HasRtlTranslate(token)
    ensures MovesForRtl(token)
  {
    hide HasRtlTranslate, MovesForRtl;
    var i, rest := FoundSomewhere(token);
    Assembled(token, i, rest);
    MovesBehind(token[..i], rest);
  }

  lemma Assembled(token: string, i: nat, rest: string)
    requires i <= |token| && "rtl:" <= token[i..] && rest == token[i..][4..]
    ensures token == token[..i] + ("rtl:" + rest)
  {
    Prefixed4(token[i..], "rtl:");
  }

  lemma MovesBehind(a: string, rest: string)
    requires (a == "" || a[|a| - 1] == ':') && Includes(rest, "translate-x")
    ensures MovesForRtl(a + ("rtl:" + rest))
  {
    hide MovesForRtl;
    IncludesParts(rest, "translate-x");
    hide Includes;
    var b, c :| rest == b + "translate-x" + c;
    Regrouped(a, "rtl:", b, "translate-x", c);
    MovesFrom(a, b, c);
  }

  lemma Prefixed4(m: string, p: string)
    requires p <= m && |p| == 4
    ensures m == p + m[4..]
  {
  }

  lemma MovesFrom(a: string, b: string, c: string)
    requires a == "" || a[|a| - 1] == ':'
    ensures MovesForRtl(a + "rtl:" + b + "translate-x" + c)
  {
  }

  lemma FoundSomewhere(token: string) returns (i: nat, rest: string)
    requires HasRtlTranslate(token)
    ensures i <= |token| && (i == 0 || token[i - 1] == ':') && "rtl:" <= token[i..] && rest == token[i..][4..]
    ensures Includes(rest, "translate-x")
  {
    hide Includes;
    i :| 0 <= i <= |token| && (i == 0 || token[i - 1] == ':') && "rtl:" <= token[i..] && Includes(token[i..][4..], "translate-x");
    rest := token[i..][4..];
  }

  /** out is ts with a twin behind every token that moves. */
  ghost predicate Twinned(ts: seq<string>, out: seq<string>) {
    if ts == [] then out == []
    else
      var n, m := |ts| - 1, |out|;
      if Moves(ts[n]) then
        m >= 3 && out[m - 3] == ts[n] && out[m - 2] == " " && IsTwin(ts[n], out[m - 1]) && Twinned(ts[..n], out[..m - 3])
      else m >= 1 && out[m - 1] == ts[n] && Twinned(ts[..n], out[..m - 1])
  }

  lemma MovesHasTwin(token: string)
    ensures Moves(token) <==> MirroredTranslate(token).Some?
    ensures Moves(token) ==> IsTwin(token, MirroredTranslate(token).value)
  {
    hide SplitOf, SignOf, PhysicalContext, PlacedPhysically, Flipped, Join, Negative, Distance, DoubleMinus;
    PlacedIsContext(SplitOf(token).variants);
    var core := SignOf(SplitOf(token).utility).core;
    if TRANSLATE <= core {
      assert core == "translate-x-" + core[12..];
    }
    if MirroredTranslate(token).Some? {
      TwinIsMirror(token);
    }
  }

  lemma {:induction false} BlankIsOnePart(t: string, depth: int)
    requires Blank(t)
    ensures Parts(t, depth) == [t]
  {
    if t != "" {
      BlankIsOnePart(t[1..], depth);
      assert t == [t[0]] + t[1..];
    }
  }

  lemma BlankStays(t: string)
    requires Blank(t)
    ensures !Moves(t)
  {
    BlankIsOnePart(t, 0);
    assert t != "" ==> t[0] != 't' && PreOf(t) == "";
    hide Parts;
  }

  lemma {:induction false} WithTwinsIsTwinned(ts: seq<string>)
    ensures Twinned(ts, WithTwins(ts, {}))
  {
    hide Moves, IsTwin, MirroredTranslate, Blank;
    if ts != [] {
      var n := |ts| - 1;
      var out, more := WithTwins(ts[..n], {}), WithTwin(ts[n], {});
      WithTwinsIsTwinned(ts[..n]);
      MovesHasTwin(ts[n]);
      if Blank(ts[n]) {
        BlankStays(ts[n]);
      }
      assert (out + more)[..|out|] == out;
    }
  }

  /** What the rewriter does to a class string, piece by piece: every piece is made logical, and if none
  has a translate for right to left already, those that move get their twins. */
  lemma RewriteLaysOut(text: string)
    ensures var ts, out := LogicalPieces(Pieces(text)), Pieces(Concat(Rewritten(text)));
      if exists t :: t in ts && MovesForRtl(t) then out == ts else Twinned(ts, out)
  {
    hide Pieces, LogicalPieces, AnyRtlTranslate, WithTwins, Twinned, Alternating, MovesForRtl;
    var ts := LogicalPieces(Pieces(text));
    AnyMoves(ts);
    RewrittenAlternates(text);
    PiecesOfConcat(Rewritten(text));
    if !AnyRtlTranslate(ts) {
      NoneIsPresent(ts);
      PresentTestIsDead(ts, set t | t in ts);
      WithTwinsIsTwinned(ts);
    }
  }

  lemma AnyMoves(ts: seq<string>)
    ensures AnyRtlTranslate(ts) <==> exists t :: t in ts && MovesForRtl(t)
  {
    hide HasRtlTranslate, MovesForRtl;
    forall t ensures MovesForRtl(t) <==> HasRtlTranslate(t) {
      MovesForRtlIs(t);
    }
  }

  lemma NoneIsPresent(ts: seq<string>)
    requires !AnyRtlTranslate(ts)
    ensures forall t :: t in ts ==> !HasRtlTranslate(t)
  {
    hide HasRtlTranslate;
  }
}
