/** Recognition of the highlight directives on one line of a code block
    (dev/shiki-plugin.js:194-316). Each regular expression of the source is
    written out as string parsing. A directive is a comment marker (`#` or
    `/`), optional whitespace and a keyword; the marker is not whitespace
    and every keyword starts with `@` and ends in a non-space character,
    so every `\s*` of the expressions has exactly one way to match, and
    parsing the line from the anchored end finds the same match the regex
    engine finds. */
module Directives {
  import opened Opt
  import opened Text
  import Ranges

  const RangesKeyword := "@highlight:"
  const EndKeyword := "@highlight-end"
  const AutoEndKeyword := "@highlight-auto-end"
  const StartKeyword := "@highlight-start"
  const AutoStartKeyword := "@highlight-auto-start"

  /** `[#\w]`: the characters of a `bgcolor=` value. */
  predicate IsColorChar(c: char) {
    c == '#' || c == '_' || IsDigit(c) || ('a' <= c <= 'z') || ('A' <= c <= 'Z')
  }

  /** The text matches `^\s*[#/]\s*` then `kw` then `rest`. */
  ghost predicate LeadingForm(line: string, kw: string, rest: string) {
    exists i | 0 <= i < |line| ::
      AllSpace(line[..i]) && IsMarker(line[i]) && SpacesThen(line[i + 1..], kw + rest)
  }

  /** The text matches `head`, a marker, `\s*`, then `kw` at its very end. */
  predicate TrailingForm(u: string, kw: string, head: string) {
    |head| + 1 + |kw| <= |u| && u[..|head|] == head && IsMarker(u[|head|])
    && AllSpace(u[|head| + 1..|u| - |kw|]) && u[|u| - |kw|..] == kw
  }

  /** The start-anchored alternative `^\s*[#/]\s*kw`: the text after the
      keyword when it matches. The match is a prefix match: anything may
      follow the keyword. */
  function AfterLeading(line: string, kw: string): Option<string> {
    var t := TrimStart(line);
    if |t| > 0 && IsMarker(t[0]) then
      var u := TrimStart(t[1..]);
      if kw <= u then Some(u[|kw|..]) else None
    else None
  }

  /** What the recogniser accepts is of the leading form. */
  lemma AfterLeadingSound(line: string, kw: string)
    requires AfterLeading(line, kw).Some?
    ensures LeadingForm(line, kw, AfterLeading(line, kw).value)
  {
    var t := TrimStart(line);
    var i := |line| - |t|;
    assert line[i..] == t;
    assert line[i + 1..] == t[1..];
    var u := TrimStart(t[1..]);
    var rest := u[|kw|..];
    assert AfterLeading(line, kw).value == rest;
    assert kw + rest == u;
    assert AllSpace(line[..i]) && IsMarker(line[i]) && SpacesThen(line[i + 1..], kw + rest);
  }

  /** Every text of the leading form is accepted, with the same rest. */
  lemma AfterLeadingComplete(line: string, kw: string, rest: string)
    requires |kw| > 0 && !IsSpace(kw[0])
    requires LeadingForm(line, kw, rest)
    ensures AfterLeading(line, kw) == Some(rest)
  {
    var i :| 0 <= i < |line| && AllSpace(line[..i]) && IsMarker(line[i])
      && SpacesThen(line[i + 1..], kw + rest);
    LeadingAt(line, i, kw, rest);
  }

  /** The leading form with its marker at index `i` is accepted. */
  lemma LeadingAt(line: string, i: nat, kw: string, rest: string)
    requires |kw| > 0 && !IsSpace(kw[0])
    requires i < |line| && AllSpace(line[..i]) && IsMarker(line[i])
    requires SpacesThen(line[i + 1..], kw + rest)
    ensures AfterLeading(line, kw) == Some(rest)
  {
    assert SpacesThen(line, line[i..]);
    TrimStartUnique(line, line[i..]);
    assert line[i..][1..] == line[i + 1..];
    assert (kw + rest)[0] == kw[0];
    TrimStartUnique(line[i + 1..], kw + rest);
    assert (kw + rest)[|kw|..] == rest;
  }

  /** The end-anchored form `[#/]\s*kw` at the very end of `u`: the text
      before the marker when it matches. */
  function BeforeTrailing(u: string, kw: string): (r: Option<string>)
    ensures r.Some? ==> TrailingForm(u, kw, r.value)
    ensures r.Some? ==> r.value <= u
  {
    if HasSuffix(u, kw) then
      var v := TrimEnd(u[..|u| - |kw|]);
      if |v| > 0 && IsMarker(v[|v| - 1]) then
        assert u[..|v|] == v;
        Some(v[..|v| - 1])
      else None
    else None
  }

  lemma BeforeTrailingComplete(u: string, kw: string, head: string)
    requires TrailingForm(u, kw, head)
    ensures BeforeTrailing(u, kw) == Some(head)
  {
    var x := u[..|u| - |kw|];
    assert x == (head + [u[|head|]]) + u[|head| + 1..|u| - |kw|];
    TrimEndPadded(head + [u[|head|]], u[|head| + 1..|u| - |kw|]);
  }

  /** `[#/]\s*kw\s*$`: the text before the marker when it matches. */
  function EndHead(line: string, kw: string): (r: Option<string>)
    ensures r.Some? ==> TrailingForm(TrimEnd(line), kw, r.value)
    ensures r.Some? ==> TrimEnd(r.value) <= line
  {
    BeforeTrailing(TrimEnd(line), kw)
  }

  /** `^\s*[#/]\s*kw\s*$`: the end-anchored form with only whitespace
      before the marker. */
  predicate Standalone(line: string, kw: string) {
    EndHead(line, kw).Some? && AllSpace(EndHead(line, kw).value)
  }

  /** `(?:\[(\d+)\])?` right after the keyword of a start-anchored match. */
  function LeadingBracket(rest: string): (r: Option<string>)
    ensures r.Some? ==> |r.value| > 0 && AllDigits(r.value)
    ensures r.Some? ==> "[" + r.value + "]" <= rest
  {
    if |rest| > 0 && rest[0] == '[' then
      var d := LeadingRun(rest[1..], IsDigit);
      if |d| > 0 && 1 + |d| < |rest| && rest[1 + |d|] == ']' then
        assert rest[..|d| + 2] == "[" + d + "]";
        Some(d)
      else None
    else None
  }

  /** `(?:\[(\d+)\])?\s*$` at the end of an end-trimmed line: the text
      before the group and its capture. When the line ends in `]` it cannot
      end in the keyword, so the group is present or nothing matches. */
  function BracketTail(u: string): (r: (string, Option<string>))
    ensures r.0 <= u
    ensures r.1.Some? ==> |r.1.value| > 0 && AllDigits(r.1.value)
    ensures r.1.Some? ==> u == r.0 + "[" + r.1.value + "]"
    ensures r.1.None? ==> r.0 == u
  {
    if |u| > 0 && u[|u| - 1] == ']' then
      var d := TrailingRun(u[..|u| - 1], IsDigit);
      var w := u[..|u| - 1 - |d|];
      if |d| > 0 && |w| > 0 && w[|w| - 1] == '[' then
        assert u == w[..|w| - 1] + "[" + d + "]";
        (w[..|w| - 1], Some(d))
      else (u, None)
    else (u, None)
  }

  /** The greedy colour run after `bgcolor=` sits right after it and
      stops at the first other character. */
  lemma ColorAfterKey(x: string, c: string)
    requires "bgcolor=" <= x && c == LeadingRun(x[8..], IsColorChar)
    ensures "bgcolor=" + c <= x
    ensures |x| == 8 + |c| || !IsColorChar(x[8 + |c|])
  {
    PrefixThen("bgcolor=", c, x);
    assert |c| == |x[8..]| || !IsColorChar(x[8..][|c|]);
  }

  /** `(?:,\s*bgcolor=([#\w]+))?` right after the keyword of a
      start-anchored match; the greedy class takes the longest run. */
  function LeadingColor(rest: string): (r: Option<string>)
    ensures r.Some? ==> |r.value| > 0 && forall k | 0 <= k < |r.value| :: IsColorChar(r.value[k])
    ensures r.Some? ==> |rest| > 0 && rest[0] == ',' && "bgcolor=" + r.value <= TrimStart(rest[1..])
    ensures r.Some? && |rest| > 0 ==>
      (var x := TrimStart(rest[1..]); |x| == 8 + |r.value| || !IsColorChar(x[8 + |r.value|]))
  {
    if |rest| > 0 && rest[0] == ',' then
      var x := TrimStart(rest[1..]);
      if "bgcolor=" <= x then
        var c := LeadingRun(x[8..], IsColorChar);
        if |c| > 0 then
          ColorAfterKey(x, c);
          Some(c)
        else None
      else None
    else None
  }

  /** `u` is `p`, a comma, the whitespace `ws`, `bgcolor=` and the colour
      `c`. */
  predicate ColorSplit(u: string, p: string, ws: string, c: string) {
    AllSpace(ws) && u == p + "," + ws + "bgcolor=" + c
  }

  /** A text that ends in `bgcolor=c`, with a comma and whitespace before,
      regrouped around the comma. */
  lemma ColorRegroup(u: string, c: string, x: string)
    requires HasSuffix(u, c) && HasSuffix(u[..|u| - |c|], "bgcolor=")
    requires var p := u[..|u| - |c| - 8]; x <= p && AllSpace(p[|x|..])
    requires |x| > 0 && x[|x| - 1] == ','
    ensures ColorSplit(u, x[..|x| - 1], u[|x|..|u| - |c| - 8], c)
  {
    var ws := u[|x|..|u| - |c| - 8];
    assert u[..|u| - |c| - 8][|x|..] == ws;
    assert u == u[..|x|] + ws + u[|u| - |c| - 8..|u| - |c|] + u[|u| - |c|..];
    assert u[..|x|] == x[..|x| - 1] + ",";
  }

  /** `(?:,\s*bgcolor=([#\w]+))?\s*$` at the end of an end-trimmed line. */
  function ColorTail(u: string): (r: (string, Option<string>))
    ensures r.0 <= u
    ensures r.1.Some? ==> |r.1.value| > 0 && forall k | 0 <= k < |r.1.value| :: IsColorChar(r.1.value[k])
    ensures r.1.Some? ==> exists ws :: ColorSplit(u, r.0, ws, r.1.value)
    ensures r.1.None? ==> r.0 == u
  {
    var c := TrailingRun(u, IsColorChar);
    var w := u[..|u| - |c|];
    if |c| > 0 && HasSuffix(w, "bgcolor=") then
      var x := TrimEnd(w[..|w| - 8]);
      if |x| > 0 && x[|x| - 1] == ',' then
        assert w[..|w| - 8] == u[..|u| - |c| - 8];
        ColorRegroup(u, c, x);
        (x[..|x| - 1], Some(c))
      else (u, None)
    else (u, None)
  }

  /** What an opening directive's regex found: whether the start-anchored
      alternative matched (the whole line is then dropped), the optional
      capture, and for the end-anchored alternative the text before the
      marker. */
  datatype Opener = Opener(leading: bool, capture: Option<string>, head: string)

  /** The regex of line 246 (its first alternative is also the test of
      line 273). */
  function StartMatch(line: string): (r: Option<Opener>)
    ensures r.Some? && r.value.capture.Some? ==> AllDigits(r.value.capture.value)
    ensures r.Some? ==> TrimEnd(r.value.head) <= line
  {
    match AfterLeading(line, StartKeyword)
    case Some(rest) => Some(Opener(true, LeadingBracket(rest), ""))
    case None =>
      var (body, capture) := BracketTail(TrimEnd(line));
      match BeforeTrailing(body, StartKeyword)
      case Some(head) => Some(Opener(false, capture, head))
      case None => None
  }

  /** The regex of line 284 (its first alternative is also the test of
      line 300). */
  function AutoStartMatch(line: string): (r: Option<Opener>)
    ensures r.Some? && r.value.capture.Some? ==> |r.value.capture.value| > 0
    ensures r.Some? ==> TrimEnd(r.value.head) <= line
  {
    match AfterLeading(line, AutoStartKeyword)
    case Some(rest) => Some(Opener(true, LeadingColor(rest), ""))
    case None =>
      var (body, capture) := ColorTail(TrimEnd(line));
      match BeforeTrailing(body, AutoStartKeyword)
      case Some(head) => Some(Opener(false, capture, head))
      case None => None
  }

  /** The `([\d,-]+)` capture of the first-line directive (line 194). */
  function RangesCapture(line: string): (r: Option<string>)
    ensures r.Some? ==> |r.value| > 0 && Ranges.RangeText(r.value)
    ensures r.Some? ==>
      (AfterLeading(line, RangesKeyword).Some?
       && r.value <= TrimStart(AfterLeading(line, RangesKeyword).value))
    ensures r.Some? ==>
      (var t := TrimStart(AfterLeading(line, RangesKeyword).value);
       |t| == |r.value| || !Ranges.IsRangeChar(t[|r.value|]))
  {
    match AfterLeading(line, RangesKeyword)
    case Some(rest) =>
      var c := LeadingRun(TrimStart(rest), Ranges.IsRangeChar);
      assert forall ch | ch in c :: Ranges.IsRangeChar(ch);
      if |c| > 0 then Some(c) else None
    case None => None
  }

  /** The effect one line asks for, as the chain of tests of the loop body
      decides it. A kept text is the line with the directive and the
      whitespace before it removed, which is what the `replace` calls of
      lines 216, 240, 278 and 305 leave. */
  datatype Directive =
    | Ranges(lines: seq<int>)                                // line 194
    | CloseKeep(cleaned: string)                             // lines 206, 230
    | CloseDrop                                              // lines 222, 311
    | Open(declared: int, kept: Option<string>)              // line 246
    | AutoOpen(bgcolor: Option<string>, kept: Option<string>)  // line 284
    | Content

  /** The first matching test wins, in the order of the source. */
  function Classify(i: nat, line: string): (r: Directive)
    ensures r.Ranges? ==> i == 0
    ensures r.Open? ==> r.declared >= 0
    ensures r.AutoOpen? && r.bgcolor.Some? ==> r.bgcolor.value != ""
    ensures r.CloseKeep? ==> r.cleaned <= line
    ensures r.Open? && r.kept.Some? ==> r.kept.value <= line
    ensures r.AutoOpen? && r.kept.Some? ==> r.kept.value <= line
  {
    if i == 0 && RangesCapture(line).Some? then
      Ranges(Ranges.ParseRanges(RangesCapture(line).value))
    else if EndHead(line, EndKeyword).Some? then
      CloseKeep(TrimEnd(EndHead(line, EndKeyword).value))
    else if Standalone(line, AutoEndKeyword) then
      CloseDrop
    else if EndHead(line, AutoEndKeyword).Some? then
      CloseKeep(TrimEnd(EndHead(line, AutoEndKeyword).value))
    else if StartMatch(line).Some? then
      var m := StartMatch(line).value;
      var level := match m.capture case Some(d) => Ranges.DigitsValue(d) case None => 1;
      Open(level, if m.leading then None else Some(TrimEnd(m.head)))
    else if AutoStartMatch(line).Some? then
      var m := AutoStartMatch(line).value;
      AutoOpen(m.capture, if m.leading then None else Some(TrimEnd(m.head)))
    else if Standalone(line, EndKeyword) then
      CloseDrop
    else
      Content
  }
}

/** Facts about the classification of single lines. */
module DirectiveFacts {
  import opened Opt
  import opened Text
  import opened Directives

  lemma InPrefix(p: string, s: string, c: char)
    requires p <= s && c in p
    ensures c in s
  {
    var k :| 0 <= k < |p| && p[k] == c;
    assert s[k] == c;
  }

  lemma LeadingHasAt(line: string, kw: string)
    ensures |kw| > 0 && kw[0] == '@' && AfterLeading(line, kw).Some? ==> '@' in line
  {
    if |kw| > 0 && kw[0] == '@' && AfterLeading(line, kw).Some? {
      AfterLeadingSound(line, kw);
      var rest := AfterLeading(line, kw).value;
      var i :| 0 <= i < |line| && AllSpace(line[..i]) && IsMarker(line[i])
        && SpacesThen(line[i + 1..], kw + rest);
      assert line[|line| - |kw + rest|] == '@';
    }
  }

  lemma TrailingHasAt(line: string, u: string, kw: string)
    ensures |kw| > 0 && kw[0] == '@' && u <= line && BeforeTrailing(u, kw).Some? ==> '@' in line
  {
    if |kw| > 0 && kw[0] == '@' && u <= line && BeforeTrailing(u, kw).Some? {
      assert u[|u| - |kw|] == '@';
      InPrefix(u, line, '@');
    }
  }

  lemma PrefixTrans(a: string, b: string, c: string)
    requires a <= b && b <= c
    ensures a <= c
  {
  }

  /** A line without `@` is plain content wherever it stands: the
      fall-through path of line 319. */
  lemma NoAtIsContent(i: nat, line: string)
    requires '@' !in line
    ensures Classify(i, line) == Content
  {
    NoAtLeading(line);
    NoAtTrailing(line);
    assert StartMatch(line).None?;
    assert AutoStartMatch(line).None?;
  }

  /** Without `@`, no start-anchored test matches. */
  lemma NoAtLeading(line: string)
    requires '@' !in line
    ensures AfterLeading(line, RangesKeyword).None? && RangesCapture(line).None?
    ensures AfterLeading(line, StartKeyword).None? && AfterLeading(line, AutoStartKeyword).None?
  {
    LeadingHasAt(line, RangesKeyword);
    LeadingHasAt(line, StartKeyword);
    LeadingHasAt(line, AutoStartKeyword);
  }

  /** Without `@`, no end-anchored test matches. */
  lemma NoAtTrailing(line: string)
    requires '@' !in line
    ensures EndHead(line, EndKeyword).None? && EndHead(line, AutoEndKeyword).None?
    ensures BeforeTrailing(BracketTail(TrimEnd(line)).0, StartKeyword).None?
    ensures BeforeTrailing(ColorTail(TrimEnd(line)).0, AutoStartKeyword).None?
  {
    var u := TrimEnd(line);
    TrailingHasAt(line, u, EndKeyword);
    TrailingHasAt(line, u, AutoEndKeyword);
    PrefixTrans(BracketTail(u).0, u, line);
    TrailingHasAt(line, BracketTail(u).0, StartKeyword);
    PrefixTrans(ColorTail(u).0, u, line);
    TrailingHasAt(line, ColorTail(u).0, AutoStartKeyword);
  }

  /** Every line the standalone `@highlight-end` test (line 311) accepts is
      already taken by the trailing test (line 206), so a line is dropped by
      a closing directive only when it is a standalone `@highlight-auto-end`. */
  lemma StandaloneEndIsShadowed(i: nat, line: string)
    ensures Standalone(line, EndKeyword) ==> EndHead(line, EndKeyword).Some?
    ensures Classify(i, line) == CloseDrop ==> Standalone(line, AutoEndKeyword)
  {
  }

  /** `[#/]\s*kw\s*$` accepts `head`, a marker, whitespace, the keyword and
      whitespace, and gives back `head`. */
  lemma EndHeadComplete(head: string, m: char, w1: string, kw: string, w2: string)
    requires IsMarker(m) && AllSpace(w1) && AllSpace(w2)
    requires |kw| > 0 && !IsSpace(kw[|kw| - 1])
    ensures EndHead(head + [m] + w1 + kw + w2, kw) == Some(head)
  {
    var u := head + [m] + w1 + kw;
    TrimEndPadded(u, w2);
    assert u + w2 == head + [m] + w1 + kw + w2;
    assert u[..|head|] == head;
    assert u[|head| + 1..|u| - |kw|] == w1;
    assert u[|u| - |kw|..] == kw;
    BeforeTrailingComplete(u, kw, head);
  }

  /** `^\s*[#/]\s*` followed by a text that does not start with whitespace:
      the start-anchored recogniser sees exactly that text, whatever the
      keyword. */
  lemma LeadingText(w1: string, m: char, w2: string, y: string, kw: string)
    requires AllSpace(w1) && IsMarker(m) && AllSpace(w2)
    requires y == [] || !IsSpace(y[0])
    ensures AfterLeading(w1 + [m] + w2 + y, kw) == if kw <= y then Some(y[|kw|..]) else None
  {
    var t := [m] + w2 + y;
    assert w1 + [m] + w2 + y == w1 + t;
    LeadingTrims(w1, t, w2, y);
  }

  /** Both trims of the start-anchored recogniser on `w1 + t`, where `t` is
      a marker, whitespace `w2` and then `y`. */
  lemma LeadingTrims(w1: string, t: string, w2: string, y: string)
    requires AllSpace(w1) && AllSpace(w2)
    requires |t| > 0 && IsMarker(t[0]) && t[1..] == w2 + y
    requires y == [] || !IsSpace(y[0])
    ensures TrimStart(w1 + t) == t && TrimStart(t[1..]) == y
  {
    TrimStartPadded(w1, t);
    TrimStartPadded(w2, y);
  }

  /** A standalone `# @highlight-end` line is not dropped: the trailing test
      takes it and keeps an empty line. */
  lemma StandaloneEndKeptEmpty(i: nat)
    ensures Classify(i, "# @highlight-end") == CloseKeep("")
  {
    StandaloneEndHead();
    StandaloneEndNotRanges();
  }

  /** The end-anchored test finds nothing before the marker of
      `# @highlight-end`. */
  lemma StandaloneEndHead()
    ensures EndHead("# @highlight-end", EndKeyword) == Some("")
  {
    EndHeadComplete("", '#', " ", EndKeyword, "");
    EndLiteral();
  }

  /** `# @highlight-end` is not the first-line directive. */
  lemma StandaloneEndNotRanges()
    ensures RangesCapture("# @highlight-end").None?
  {
    EndLiteral();
    EndNotRanges("", '#', " ", "");
  }

  /** An end directive in the leading form is not the first-line
      directive: the eleventh character after the marker is `-`, not `:`. */
  lemma EndNotRanges(w1: string, m: char, w2: string, w3: string)
    requires AllSpace(w1) && IsMarker(m) && AllSpace(w2)
    ensures RangesCapture(w1 + [m] + w2 + EndKeyword + w3).None?
  {
    var y := EndKeyword + w3;
    assert w1 + [m] + w2 + EndKeyword + w3 == w1 + [m] + w2 + y;
    assert y[0] == '@' && y[10] == '-';
    LeadingText(w1, m, w2, y, RangesKeyword);
  }

  /** The same holds for an auto-end directive in the leading form. */
  lemma AutoEndNotRanges(w1: string, m: char, w2: string, w3: string)
    requires AllSpace(w1) && IsMarker(m) && AllSpace(w2)
    ensures RangesCapture(w1 + [m] + w2 + AutoEndKeyword + w3).None?
  {
    var y := AutoEndKeyword + w3;
    assert w1 + [m] + w2 + AutoEndKeyword + w3 == w1 + [m] + w2 + y;
    assert y[0] == '@' && y[10] == '-';
    LeadingText(w1, m, w2, y, RangesKeyword);
  }

  lemma EndLiteral()
    ensures "" + ['#'] + " " + EndKeyword == "# @highlight-end"
    ensures "" + ['#'] + " " + EndKeyword + "" == "# @highlight-end"
  {
    assert "" + ['#'] + " " == "# ";
    assert "# " + EndKeyword == "# @highlight-end";
  }

  /** The marker class holds one character, so an indented
      `// @highlight-start` fails the start-anchored alternative (a `/`
      follows the first `/`) and is taken by the end-anchored one, which
      keeps the indentation and the first `/` as a line of its own. */
  lemma DoubleSlashStartKeepsSlash(i: nat, w: string)
    requires AllSpace(w)
    ensures Classify(i, w + "// @highlight-start") == Open(1, Some(w + "/"))
  {
    var line := w + "// @highlight-start";
    DoubleSlashNotLeading(w, RangesKeyword);
    DoubleSlashStartMatch(w);
    DoubleSlashNoEnd(w);
    StartWins(i, line);
    TrimEndPadded(w + "/", "");
    assert w + "/" + "" == w + "/";
  }

  /** When neither the first-line directive nor an end directive matches,
      a start directive decides the line. */
  lemma StartWins(i: nat, line: string)
    requires i == 0 ==> RangesCapture(line).None?
    requires EndHead(line, EndKeyword).None? && EndHead(line, AutoEndKeyword).None?
    requires StartMatch(line).Some?
    ensures var m := StartMatch(line).value;
      Classify(i, line) == Open(
        match m.capture case Some(d) => Ranges.DigitsValue(d) case None => 1,
        if m.leading then None else Some(TrimEnd(m.head)))
  {
  }

  /** When neither the first-line directive, an end directive nor a start
      directive matches, an auto-start decides the line; its level is the
      depth, which only the pass knows. */
  lemma AutoStartWins(i: nat, line: string)
    requires i == 0 ==> RangesCapture(line).None?
    requires EndHead(line, EndKeyword).None? && EndHead(line, AutoEndKeyword).None?
    requires StartMatch(line).None? && AutoStartMatch(line).Some?
    ensures var m := AutoStartMatch(line).value;
      Classify(i, line) == AutoOpen(m.capture, if m.leading then None else Some(TrimEnd(m.head)))
  {
  }

  /** An indented `// @highlight-start` holds no end directive. */
  lemma DoubleSlashNoEnd(w: string)
    requires AllSpace(w)
    ensures EndHead(w + "// @highlight-start", EndKeyword).None?
    ensures EndHead(w + "// @highlight-start", AutoEndKeyword).None?
  {
    var line := w + "// @highlight-start";
    TrimEndPadded(line, "");
    assert line + "" == line;
    assert line[|line| - 1] == 't';
    assert EndKeyword[|EndKeyword| - 1] == 'd';
    assert AutoEndKeyword[|AutoEndKeyword| - 1] == 'd';
  }

  lemma DoubleSlashStartMatch(w: string)
    requires AllSpace(w)
    ensures StartMatch(w + "// @highlight-start") == Some(Opener(false, None, w + "/"))
  {
    var line := w + "// @highlight-start";
    DoubleSlashNotLeading(w, StartKeyword);
    DoubleSlashTrailing(w);
    TrimEndPadded(line, "");
    assert line + "" == line;
    assert BracketTail(line) == (line, None);
  }

  /** After `//` the start-anchored tests meet a second `/`, so no keyword
      starting with `@` follows the marker. */
  lemma DoubleSlashNotLeading(w: string, kw: string)
    requires AllSpace(w) && |kw| > 0 && kw[0] == '@'
    ensures AfterLeading(w + "// @highlight-start", kw) == None
  {
    var x := "// @highlight-start";
    TrimStartPadded(w, x);
    TrimStartPadded("", x[1..]);
    assert "" + x[1..] == x[1..];
    assert x[1] == '/';
  }

  lemma DoubleSlashTrailing(w: string)
    requires AllSpace(w)
    ensures BeforeTrailing(w + "// @highlight-start", StartKeyword) == Some(w + "/")
  {
    var line := w + "// @highlight-start";
    EndHeadComplete(w + "/", '/', " ", StartKeyword, "");
    DoubleSlashLiteral(w);
    TrimEndPadded(line, "");
    assert line + "" == line;
  }

  lemma DoubleSlashLiteral(w: string)
    ensures w + "/" + ['/'] + " " + StartKeyword + "" == w + "// @highlight-start"
  {
    assert "/" + ['/'] + " " + StartKeyword == "// @highlight-start";
    assert w + "/" + ['/'] + " " + StartKeyword + "" == w + ("/" + ['/'] + " " + StartKeyword);
  }
}
