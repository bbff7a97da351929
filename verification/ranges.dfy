/** `parseHighlightRanges` (dev/shiki-plugin.js:83-100): the list of line
    numbers named by the argument of a first-line `@highlight:` directive,
    e.g. `"1,3-4"` names lines 1, 3 and 4. */
module Ranges {
  import opened Opt
  import opened Text

  /** The characters of the `[\d,-]+` capture, the only text the function
      is ever given. */
  predicate IsRangeChar(c: char) {
    IsDigit(c) || c == ',' || c == '-'
  }

  predicate RangeText(s: string) {
    forall c | c in s :: IsRangeChar(c)
  }

  /** The decimal value of a string of digits (leading zeros allowed). */
  function DigitsValue(s: string): nat
    requires AllDigits(s)
  {
    if |s| == 0 then 0 else DigitsValue(s[..|s| - 1]) * 10 + (s[|s| - 1] as int - '0' as int)
  }

  /** `parseInt` on a string of digits: `None` stands for `NaN`, which is
      what the empty string gives. */
  function ParseInt(s: string): (r: Option<nat>)
    requires AllDigits(s)
    ensures r.None? <==> s == ""
  {
    if s == "" then None else Some(DigitsValue(s))
  }

  function DigitChar(d: nat): (c: char)
    requires d < 10
    ensures IsDigit(c) && c as int - '0' as int == d
  {
    ('0' as int + d) as char
  }

  /** The decimal text of `n`; the round trip through `DigitsValue` is its
      contract. */
  function ShowNat(n: nat): (r: string)
    ensures |r| >= 1 && AllDigits(r)
    ensures DigitsValue(r) == n
  {
    if n < 10 then [DigitChar(n)]
    else
      var r := ShowNat(n / 10) + [DigitChar(n % 10)];
      assert r[..|r| - 1] == ShowNat(n / 10);
      r
  }

  /** `for (let i = a; i <= b; i++) ranges.push(i)` */
  function Span(a: int, b: int): (r: seq<int>)
    ensures |r| == if a <= b then b - a + 1 else 0
    ensures forall j | 0 <= j < |r| :: r[j] == a + j
    decreases b - a
  {
    if a > b then [] else [a] + Span(a + 1, b)
  }

  /** A comma-separated item as the `[\d,-]+` capture gives it. */
  predicate HyphenatedDigits(part: string) {
    forall c | c in part :: IsDigit(c) || c == '-'
  }

  lemma PiecesAreDigits(part: string, k: int)
    requires HyphenatedDigits(part)
    requires 0 <= k < |Split(part, '-')|
    ensures AllDigits(Split(part, '-')[k])
  {
    var piece := Split(part, '-')[k];
    forall j | 0 <= j < |piece|
      ensures IsDigit(piece[j])
    {
      SplitChars(part, '-', k, piece[j]);
    }
  }

  /** The numbers one comma-separated part contributes. */
  function PartValues(part: string): (r: seq<int>)
    requires HyphenatedDigits(part)
    ensures forall j | 0 <= j < |r| :: r[j] >= 0
  {
    if '-' in part then
      var pieces := Split(part, '-');
      PiecesAreDigits(part, 0);
      PiecesAreDigits(part, 1);
      match (ParseInt(pieces[0]), ParseInt(pieces[1]))
      case (Some(a), Some(b)) => Span(a, b)
      case _ => []
    else
      assert AllDigits(part);
      match ParseInt(part)
      case Some(n) => [n]
      case None => []
  }

  function PartsValues(parts: seq<string>): (r: seq<int>)
    requires forall k | 0 <= k < |parts| :: HyphenatedDigits(parts[k])
    ensures forall j | 0 <= j < |r| :: r[j] >= 0
  {
    if |parts| == 0 then [] else PartValues(parts[0]) + PartsValues(parts[1..])
  }

  lemma PartsAreHyphenatedDigits(s: string)
    requires RangeText(s)
    ensures forall k | 0 <= k < |Split(s, ',')| :: HyphenatedDigits(Split(s, ',')[k])
  {
    forall k | 0 <= k < |Split(s, ',')|
      ensures HyphenatedDigits(Split(s, ',')[k])
    {
      forall c | c in Split(s, ',')[k]
        ensures IsDigit(c) || c == '-'
      {
        SplitChars(s, ',', k, c);
      }
    }
  }

  /** `parseHighlightRanges(s)`: every comma-separated part in order. */
  function ParseRanges(s: string): (r: seq<int>)
    requires RangeText(s)
    ensures forall j | 0 <= j < |r| :: r[j] >= 0
  {
    PartsAreHyphenatedDigits(s);
    PartsValues(Split(s, ','))
  }

  lemma {:induction false} PartsValuesAppend(p: seq<string>, q: seq<string>)
    requires forall k | 0 <= k < |p| :: HyphenatedDigits(p[k])
    requires forall k | 0 <= k < |q| :: HyphenatedDigits(q[k])
    ensures PartsValues(p + q) == PartsValues(p) + PartsValues(q)
  {
    if |p| > 0 {
      PartsValuesCons(p, q);
      PartsValuesAppend(p[1..], q);
      Associate(PartValues(p[0]), PartsValues(p[1..]), PartsValues(q));
    } else {
      assert p + q == q;
    }
  }

  /** The first item of `p + q` is that of `p`, and the rest is `p`'s rest
      followed by `q`. */
  lemma PartsValuesCons(p: seq<string>, q: seq<string>)
    requires |p| > 0
    requires forall k | 0 <= k < |p| :: HyphenatedDigits(p[k])
    requires forall k | 0 <= k < |q| :: HyphenatedDigits(q[k])
    ensures PartsValues(p + q) == PartValues(p[0]) + PartsValues(p[1..] + q)
  {
    ConsTail(p, q);
    HyphenatedAppend(p, q);
    HyphenatedAppend(p[1..], q);
  }

  lemma Associate<T>(a: seq<T>, b: seq<T>, c: seq<T>)
    ensures a + (b + c) == (a + b) + c
  {
  }

  lemma ConsTail<T>(p: seq<T>, q: seq<T>)
    requires |p| > 0
    ensures (p + q)[0] == p[0] && (p + q)[1..] == p[1..] + q
  {
  }

  /** Items that are all hyphenated digits stay so when concatenated. */
  lemma HyphenatedAppend(p: seq<string>, q: seq<string>)
    requires forall k | 0 <= k < |p| :: HyphenatedDigits(p[k])
    requires forall k | 0 <= k < |q| :: HyphenatedDigits(q[k])
    ensures forall k | 0 <= k < |p + q| :: HyphenatedDigits((p + q)[k])
  {
    forall k | 0 <= k < |p + q|
      ensures HyphenatedDigits((p + q)[k])
    {
      if k < |p| {
        assert (p + q)[k] == p[k];
      } else {
        assert (p + q)[k] == q[k - |p|];
      }
    }
  }

  /** The result follows the input order: the numbers of the text before a
      comma come first, those after it next. */
  lemma CommaConcatenates(a: string, b: string)
    requires RangeText(a) && RangeText(b)
    ensures RangeText(a + "," + b)
    ensures ParseRanges(a + "," + b) == ParseRanges(a) + ParseRanges(b)
  {
    SplitConcat(a, b, ',');
    PartsAreHyphenatedDigits(a);
    PartsAreHyphenatedDigits(b);
    PartsValuesAppend(Split(a, ','), Split(b, ','));
  }

  lemma DigitsHaveNoSeparators(s: string)
    requires AllDigits(s)
    ensures '-' !in s && ',' !in s && RangeText(s)
  {
    assert forall c | c in s :: IsDigit(c);
  }

  /** A text without a comma is one part. */
  lemma OnePart(part: string)
    requires RangeText(part) && ',' !in part
    ensures HyphenatedDigits(part)
    ensures ParseRanges(part) == PartValues(part)
  {
    assert Split(part, ',') == [part];
    assert PartsValues([part]) == PartValues(part) + PartsValues([]);
  }

  /** A part without `-` yields its number. */
  lemma SingleNumber(n: nat)
    ensures RangeText(ShowNat(n))
    ensures ParseRanges(ShowNat(n)) == [n]
  {
    DigitsHaveNoSeparators(ShowNat(n));
    OnePart(ShowNat(n));
  }

  /** The first two `-`-pieces of `a-b` followed by nothing or by `-...`. */
  lemma HyphenPieces(sa: string, sb: string, extra: string)
    requires '-' !in sa && '-' !in sb
    requires extra == [] || extra[0] == '-'
    ensures |Split(sa + "-" + sb + extra, '-')| >= 2
    ensures Split(sa + "-" + sb + extra, '-')[0] == sa
    ensures Split(sa + "-" + sb + extra, '-')[1] == sb
  {
    assert sa + "-" + sb + extra == sa + ['-'] + (sb + extra);
    SplitAround(sa, sb + extra, '-');
    FirstPiece(sb, extra);
  }

  /** A text without `-` followed by nothing or by `-...` is the first
      `-`-piece. */
  lemma FirstPiece(sb: string, extra: string)
    requires '-' !in sb
    requires extra == [] || extra[0] == '-'
    ensures |Split(sb + extra, '-')| >= 1 && Split(sb + extra, '-')[0] == sb
  {
    if extra == [] {
      assert sb + extra == sb;
    } else {
      assert sb + extra == sb + ['-'] + extra[1..];
      SplitAround(sb, extra[1..], '-');
    }
  }

  /** A part `a-b` yields a, a+1, ..., b (nothing when a > b); any further
      `-c` pieces of the same part are ignored, as the destructuring
      `[start, end]` ignores them. */
  lemma NumberSpan(a: nat, b: nat, extra: string)
    requires HyphenatedDigits(extra)
    requires extra == [] || extra[0] == '-'
    ensures RangeText(ShowNat(a) + "-" + ShowNat(b) + extra)
    ensures ParseRanges(ShowNat(a) + "-" + ShowNat(b) + extra) == Span(a, b)
  {
    var sa, sb := ShowNat(a), ShowNat(b);
    DigitsHaveNoSeparators(sa);
    DigitsHaveNoSeparators(sb);
    var part := sa + "-" + sb + extra;
    assert forall c | c in part :: c in sa || c == '-' || c in sb || c in extra;
    OnePart(part);
    HyphenPieces(sa, sb, extra);
    assert '-' in part by { assert part[|sa|] == '-'; }
  }

  /** A part with a missing bound (`-4`, `3-`) or an empty part yields
      nothing. */
  lemma MissingBoundYieldsNothing(n: nat)
    ensures RangeText("-" + ShowNat(n)) && RangeText(ShowNat(n) + "-")
    ensures ParseRanges("-" + ShowNat(n)) == []
    ensures ParseRanges(ShowNat(n) + "-") == []
    ensures ParseRanges("") == []
  {
    var sn := ShowNat(n);
    DigitsHaveNoSeparators(sn);
    HyphenPieces("", sn, "");
    assert "" + "-" + sn + "" == "-" + sn;
    OnePart("-" + sn);
    assert ("-" + sn)[0] == '-';
    HyphenPieces(sn, "", "");
    assert sn + "-" + "" + "" == sn + "-";
    OnePart(sn + "-");
    assert (sn + "-")[|sn|] == '-';
    OnePart("");
  }

  /** The comment's own example: `"1,3-4"` names lines 1, 3 and 4. */
  lemma Example()
    ensures RangeText("1,3-4")
    ensures ParseRanges("1,3-4") == [1, 3, 4]
  {
    SingleNumber(1);
    NumberSpan(3, 4, "");
    ExampleText();
    CommaConcatenates("1", "3-4");
  }

  /** The pieces of the example, spelt out. */
  lemma ExampleText()
    ensures ShowNat(1) == "1"
    ensures ShowNat(3) + "-" + ShowNat(4) + "" == "3-4"
    ensures "1" + "," + "3-4" == "1,3-4"
  {
    assert ShowNat(3) == "3" && ShowNat(4) == "4";
  }
}
