/** The per-line decoration choice of `addHighlightToLines`
    (dev/shiki-plugin.js:103-150), for the map the directive pass builds:
    which rendered line gets which `highlight-level-k` class or inline
    background colour. */
module Decoration {
  import opened Opt
  import opened Pass
  import opened Directives
  import PassFacts

  /** What one rendered line receives. */
  datatype Deco = Bare | LevelClass(k: int) | Background(color: string)

  /** JavaScript's `a % b` for `b > 0`: the remainder truncated toward
      zero, which takes the sign of `a`. */
  function JsRem(a: int, b: int): (r: int)
    requires b > 0
    ensures a >= 0 ==> 0 <= r < b
    ensures a < 0 ==> -b < r <= 0
    ensures a >= 0 ==> r == a % b
  {
    if a >= 0 then a % b else -((-a) % b)
  }

  /** Truncation is symmetric: negating the dividend negates the
      remainder. */
  lemma JsRemNegate(a: int, b: int)
    requires b > 0
    ensures JsRem(-a, b) == -JsRem(a, b)
  {
  }

  /** `((level - 1) % 4) + 1`: the `k` of `highlight-level-k`. */
  function Palette(level: int): int {
    JsRem(level - 1, 4) + 1
  }

  /** For every level the pass can produce the palette index lies in 1..4,
      agrees with the mathematical remainder, and repeats every 4 levels. */
  lemma PaletteCycle(level: int)
    requires level >= 1
    ensures 1 <= Palette(level) <= 4
    ensures Palette(level) == (level - 1) % 4 + 1
    ensures Palette(level + 4) == Palette(level)
  {
  }

  /** The source's operator is not the mathematical remainder below 1:
      a level of 0 would give the class `highlight-level-0`. */
  lemma PaletteBelowOne()
    ensures Palette(0) == 0 && Palette(-3) == 1
  {
  }

  /** The decoration for one map value: a plain number or a span without a
      (non-empty) `bgcolor` gets the palette class, a span with one gets
      the inline background instead. */
  function MarkDeco(m: Mark): (r: Deco)
    ensures r != Bare
    ensures r.Background? <==> m.Of? && m.span.bgcolor.Some? && m.span.bgcolor.value != ""
    ensures r.Background? ==> r.color == m.span.bgcolor.value
    ensures r.LevelClass? ==> r.k == Palette(PassFacts.MarkLevel(m))
  {
    match m
    case Level(n) => LevelClass(Palette(n))
    case Of(span) =>
      if span.bgcolor.Some? && span.bgcolor.value != "" then Background(span.bgcolor.value)
      else LevelClass(Palette(span.level))
  }

  /** The decoration of each of the `count` rendered lines: line `j`
      (0-based) takes the value under key `j + 1`; `lines[key - 1]` is
      undefined for any other key, which is then ignored. */
  function Decorate(count: nat, marks: map<int, Mark>): (r: seq<Deco>)
    ensures |r| == count
    ensures forall j | 0 <= j < count :: (r[j] == Bare) <==> (j + 1 !in marks)
  {
    seq(count, j requires 0 <= j < count => if j + 1 in marks then MarkDeco(marks[j + 1]) else Bare)
  }

  /** A key outside 1..count changes nothing, whatever it maps to. */
  lemma OutOfRangeIgnored(count: nat, marks: map<int, Mark>, key: int, m: Mark)
    requires key < 1 || count < key
    ensures Decorate(count, marks[key := m]) == Decorate(count, marks)
    ensures Decorate(count, marks - {key}) == Decorate(count, marks)
  {
    var a, b, c := Decorate(count, marks[key := m]), Decorate(count, marks), Decorate(count, marks - {key});
    forall j | 0 <= j < count
      ensures a[j] == b[j] && c[j] == b[j]
    {
      assert j + 1 != key;
    }
  }

  /** Every class the pass's map leads to is one of the four palette
      classes. */
  lemma PassClassesInPalette(lines: seq<string>, ds: seq<Directive>, count: nat)
    requires |ds| == |lines|
    ensures var deco := Decorate(count, Run(lines, ds, |lines|).marks);
      forall j | 0 <= j < count && deco[j].LevelClass? :: 1 <= deco[j].k <= 4
  {
    PassFacts.LevelsStayPositive(lines, ds, |lines|);
    var marks := Run(lines, ds, |lines|).marks;
    var deco := Decorate(count, marks);
    forall j | 0 <= j < count && deco[j].LevelClass?
      ensures 1 <= deco[j].k <= 4
    {
      PaletteCycle(PassFacts.MarkLevel(marks[j + 1]));
    }
  }
}
