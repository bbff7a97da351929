/** Completeness of the recognisers that carry a capture
    (dev/shiki-plugin.js:194, 246, 284): every line of a directive's form
    is recognised, and the capture is the text inside `[...]`, after
    `bgcolor=` or after `@highlight:`. */
module CaptureFacts {
  import opened Opt
  import opened Text
  import opened Directives
  import DirectiveFacts
  import Ranges

  /** A `bgcolor=` value the class `[#\w]+` accepts. */
  predicate IsColor(c: string) {
    |c| > 0 && forall k | 0 <= k < |c| :: IsColorChar(c[k])
  }

  /** The optional `[n]` of a start directive. */
  function Bracket(cap: Option<string>): string {
    match cap
    case None => ""
    case Some(d) => "[" + d + "]"
  }

  /** The optional `,bgcolor=c` of an auto-start directive, with the
      whitespace `ws` the regex allows after the comma. */
  function ColorGroup(ws: string, cap: Option<string>): string {
    match cap
    case None => ""
    case Some(c) => "," + ws + "bgcolor=" + c
  }

  /** A line whose first non-space character is not a marker is never of
      the start-anchored form. */
  lemma NotLeading(line: string, kw: string)
    requires TrimStart(line) != [] && !IsMarker(TrimStart(line)[0])
    ensures AfterLeading(line, kw) == None
  {
  }

  /** A line that starts with code matches none of the start-anchored
      tests that come before an auto-start. */
  lemma CodeFirst(line: string)
    requires |line| > 0 && !IsSpace(line[0]) && !IsMarker(line[0])
    ensures AfterLeading(line, AutoStartKeyword).None? && AfterLeading(line, StartKeyword).None?
    ensures RangesCapture(line).None?
  {
    NotLeading(line, AutoStartKeyword);
    NotLeading(line, StartKeyword);
    NotLeading(line, RangesKeyword);
  }

  /** `[#/]\s*kw` at the very end gives back the text before the marker. */
  lemma TrailingAt(head: string, m: char, w1: string, kw: string)
    requires IsMarker(m) && AllSpace(w1)
    ensures BeforeTrailing(head + [m] + w1 + kw, kw) == Some(head)
  {
    var u := head + [m] + w1 + kw;
    assert u[..|head|] == head;
    assert u[|head| + 1..|u| - |kw|] == w1;
    assert u[|u| - |kw|..] == kw;
    BeforeTrailingComplete(u, kw, head);
  }

  /** `(?:\[(\d+)\])?` after a leading keyword: `[d]` captures `d`,
      whatever follows it. */
  lemma LeadingBracketComplete(d: string, x: string)
    requires |d| > 0 && AllDigits(d)
    ensures LeadingBracket("[" + d + "]" + x) == Some(d)
  {
    var rest := "[" + d + "]" + x;
    assert rest[1..] == d + ("]" + x);
    LeadingRunExact(d, "]" + x, IsDigit);
    assert rest[1 + |d|] == ']';
  }

  /** `(?:\[(\d+)\])?` at the end: `body[d]` splits into `body` and `d`. */
  lemma BracketTailComplete(body: string, d: string)
    requires |d| > 0 && AllDigits(d)
    ensures BracketTail(body + "[" + d + "]") == (body, Some(d))
  {
    var u := body + "[" + d + "]";
    assert u[..|u| - 1] == (body + "[") + d;
    TrailingRunExact(body + "[", d, IsDigit);
    assert u[..|u| - 1 - |d|] == body + "[";
  }

  /** `(?:,\s*bgcolor=([#\w]+))?` after a leading keyword: the greedy
      class captures the whole colour `c` and stops before `x`. */
  lemma LeadingColorComplete(w: string, c: string, x: string)
    requires AllSpace(w) && IsColor(c)
    requires x == [] || !IsColorChar(x[0])
    ensures LeadingColor("," + w + "bgcolor=" + c + x) == Some(c)
  {
    var y := "bgcolor=" + c + x;
    var rest := "," + w + "bgcolor=" + c + x;
    assert rest[1..] == w + y;
    TrimStartPadded(w, y);
    assert y[8..] == c + x;
    LeadingRunExact(c, x, IsColorChar);
  }

  /** `(?:,\s*bgcolor=([#\w]+))?` at the end: `u,  bgcolor=c` splits into
      `u` and `c`. */
  lemma ColorTailComplete(u: string, w: string, c: string)
    requires AllSpace(w) && IsColor(c)
    ensures ColorTail(u + "," + w + "bgcolor=" + c) == (u, Some(c))
  {
    var p := u + "," + w + "bgcolor=";
    assert u + "," + w + "bgcolor=" + c == p + c;
    TrailingRunExact(p, c, IsColorChar);
    assert (p + c)[..|p + c| - |c|] == p;
    assert p[..|p| - 8] == (u + ",") + w;
    TrimEndPadded(u + ",", w);
    assert (u + ",")[..|u|] == u;
  }

  /** The two ways the regex of line 246 matches. */
  lemma StartMatchCases(line: string, body: string, cap: Option<string>, head: string)
    ensures AfterLeading(line, StartKeyword).Some? ==>
      StartMatch(line) == Some(Opener(true, LeadingBracket(AfterLeading(line, StartKeyword).value), ""))
    ensures (AfterLeading(line, StartKeyword).None? && BracketTail(TrimEnd(line)) == (body, cap)
             && BeforeTrailing(body, StartKeyword) == Some(head))
            ==> StartMatch(line) == Some(Opener(false, cap, head))
    ensures (AfterLeading(line, StartKeyword).None?
             && BeforeTrailing(BracketTail(TrimEnd(line)).0, StartKeyword).None?)
            ==> StartMatch(line).None?
  {
  }

  /** The two ways the regex of line 284 matches. */
  lemma AutoStartMatchCases(line: string, body: string, cap: Option<string>, head: string)
    ensures AfterLeading(line, AutoStartKeyword).Some? ==>
      AutoStartMatch(line) == Some(Opener(true, LeadingColor(AfterLeading(line, AutoStartKeyword).value), ""))
    ensures (AfterLeading(line, AutoStartKeyword).None? && ColorTail(TrimEnd(line)) == (body, cap)
             && BeforeTrailing(body, AutoStartKeyword) == Some(head))
            ==> AutoStartMatch(line) == Some(Opener(false, cap, head))
  {
  }

  /** The end-anchored bracket group splits a text into the part before
      it and the group as written. */
  lemma BracketTailJoin(u: string)
    ensures u == BracketTail(u).0 + Bracket(BracketTail(u).1)
  {
    var r := BracketTail(u);
    if r.1.Some? {
      assert Bracket(r.1) == "[" + r.1.value + "]";
    } else {
      assert r.0 + Bracket(r.1) == u + "";
    }
  }

  /** The end-anchored colour group splits a text into the part before it
      and the group as written, with some whitespace after the comma. */
  lemma ColorTailJoin(u: string) returns (ws: string)
    ensures AllSpace(ws) && u == ColorTail(u).0 + ColorGroup(ws, ColorTail(u).1)
  {
    ws := RejoinColor(u, ColorTail(u));
  }

  /** A split of `u` into a rest and an optional colour group, of the
      shape `ColorTail` promises, joins back into `u`. */
  lemma RejoinColor(u: string, r: (string, Option<string>)) returns (ws: string)
    requires r.1.Some? ==> exists ws :: ColorSplit(u, r.0, ws, r.1.value)
    requires r.1.None? ==> r.0 == u
    ensures AllSpace(ws) && u == r.0 + ColorGroup(ws, r.1)
  {
    if r.1.Some? {
      ws :| ColorSplit(u, r.0, ws, r.1.value);
      assert ColorGroup(ws, r.1) == "," + ws + "bgcolor=" + r.1.value;
    } else {
      ws := "";
      assert r.0 + ColorGroup(ws, r.1) == u + "";
    }
  }

  /** The end-anchored alternative of line 246, when the start-anchored one
      fails. */
  lemma StartTrailingParts(line: string)
    requires AfterLeading(line, StartKeyword).None? && StartMatch(line).Some?
    ensures var m := StartMatch(line).value;
      !m.leading && m.capture == BracketTail(TrimEnd(line)).1
      && BeforeTrailing(BracketTail(TrimEnd(line)).0, StartKeyword) == Some(m.head)
  {
  }

  /** The end-anchored alternative of line 284, when the start-anchored one
      fails. */
  lemma AutoStartTrailingParts(line: string)
    requires AfterLeading(line, AutoStartKeyword).None? && AutoStartMatch(line).Some?
    ensures var m := AutoStartMatch(line).value;
      !m.leading && m.capture == ColorTail(TrimEnd(line)).1
      && BeforeTrailing(ColorTail(TrimEnd(line)).0, AutoStartKeyword) == Some(m.head)
  {
  }

  /** Whatever the regex of line 246 matches is a start directive as
      written: the start-anchored form with the group after the keyword,
      or, before trailing whitespace, the head, a marker, the keyword and
      the group. */
  lemma StartMatchSound(line: string)
    requires StartMatch(line).Some?
    ensures var m := StartMatch(line).value;
      (m.leading ==> m.head == "" && exists rest :: LeadingForm(line, StartKeyword, rest) && LeadingBracket(rest) == m.capture)
      && (!m.leading ==> exists body :: TrailingForm(body, StartKeyword, m.head) && TrimEnd(line) == body + Bracket(m.capture))
  {
    if AfterLeading(line, StartKeyword).Some? {
      AfterLeadingSound(line, StartKeyword);
    } else {
      StartTrailingParts(line);
      BracketTailJoin(TrimEnd(line));
    }
  }

  /** Whatever the regex of line 284 matches is an auto-start as written:
      the start-anchored form with the colour group after the keyword, or,
      before trailing whitespace, the head, a marker, the keyword and the
      colour group. */
  lemma AutoStartMatchSound(line: string)
    requires AutoStartMatch(line).Some?
    ensures var m := AutoStartMatch(line).value;
      (m.leading ==> m.head == "" && exists rest :: LeadingForm(line, AutoStartKeyword, rest) && LeadingColor(rest) == m.capture)
      && (!m.leading ==> exists body, ws :: AllSpace(ws) && TrailingForm(body, AutoStartKeyword, m.head)
                                          && TrimEnd(line) == body + ColorGroup(ws, m.capture))
  {
    if AfterLeading(line, AutoStartKeyword).Some? {
      AfterLeadingSound(line, AutoStartKeyword);
    } else {
      AutoStartTrailingParts(line);
      var ws := ColorTailJoin(TrimEnd(line));
    }
  }

  /** Whatever the first-line regex captures sits in the line as written:
      the start-anchored form, then whitespace and the capture, then a
      character outside `[\d,-]` or the end of the line. */
  lemma RangesCaptureSound(line: string)
    requires RangesCapture(line).Some?
    ensures AfterLeading(line, RangesKeyword).Some?
    ensures var rest := AfterLeading(line, RangesKeyword).value;
      var c := RangesCapture(line).value;
      LeadingForm(line, RangesKeyword, rest)
      && exists t :: SpacesThen(rest, t) && c <= t && (|t| == |c| || !Ranges.IsRangeChar(t[|c|]))
  {
    AfterLeadingSound(line, RangesKeyword);
  }

  /** A leading start directive, `^\s*[#/]\s*@highlight-start`, with its
      optional `[d]`: the start-anchored alternative matches, and the
      capture is `d`. */
  lemma StartLeadingComplete(w1: string, m: char, w2: string, cap: Option<string>, x: string)
    requires AllSpace(w1) && IsMarker(m) && AllSpace(w2)
    requires cap.Some? ==> |cap.value| > 0 && AllDigits(cap.value)
    requires cap.None? ==> x == [] || x[0] != '['
    ensures StartMatch(w1 + [m] + w2 + StartKeyword + Bracket(cap) + x) == Some(Opener(true, cap, ""))
  {
    var line := w1 + [m] + w2 + StartKeyword + Bracket(cap) + x;
    LeadingShape(w1, m, w2, StartKeyword, Bracket(cap), x);
    DirectiveFacts.LeadingText(w1, m, w2, StartKeyword + Bracket(cap) + x, StartKeyword);
    KeywordRest(StartKeyword, Bracket(cap), x);
    StartBracket(cap, x);
    StartMatchCases(line, "", None, "");
  }

  /** A keyword followed by more text is a prefix of it, and what follows
      is the rest. */
  lemma KeywordRest(kw: string, g: string, x: string)
    ensures kw <= kw + g + x
    ensures (kw + g + x)[|kw|..] == g + x
  {
  }

  /** The optional group of a start, followed by text that does not open
      another `[`, is captured as written. */
  lemma StartBracket(cap: Option<string>, x: string)
    requires cap.Some? ==> |cap.value| > 0 && AllDigits(cap.value)
    requires cap.None? ==> x == [] || x[0] != '['
    ensures LeadingBracket(Bracket(cap) + x) == cap
  {
    if cap.Some? {
      LeadingBracketComplete(cap.value, x);
    }
  }

  /** A start directive at the end of a line,
      `head [#/]\s*@highlight-start[d]\s*$`, on a line that is not itself a
      leading start: the end-anchored alternative matches, the capture is
      `d` and the head is the text before the marker. */
  lemma StartTrailingComplete(head: string, m: char, w1: string, cap: Option<string>, w2: string)
    requires IsMarker(m) && AllSpace(w1) && AllSpace(w2)
    requires cap.Some? ==> |cap.value| > 0 && AllDigits(cap.value)
    requires AfterLeading(head + [m] + w1 + StartKeyword + Bracket(cap) + w2, StartKeyword).None?
    ensures StartMatch(head + [m] + w1 + StartKeyword + Bracket(cap) + w2) == Some(Opener(false, cap, head))
  {
    var line := head + [m] + w1 + StartKeyword + Bracket(cap) + w2;
    TrailingAt(head, m, w1, StartKeyword);
    TrailingBracket(head + [m] + w1, cap, w2);
    StartMatchCases(line, head + [m] + w1 + StartKeyword, cap, head);
  }

  /** The end-anchored bracket group of a start after its keyword, with
      whitespace after it: right-trimming leaves the group, which is
      captured as written. */
  lemma TrailingBracket(u: string, cap: Option<string>, w2: string)
    requires cap.Some? ==> |cap.value| > 0 && AllDigits(cap.value)
    requires AllSpace(w2)
    ensures BracketTail(TrimEnd(u + StartKeyword + Bracket(cap) + w2)) == (u + StartKeyword, cap)
  {
    var body := u + StartKeyword;
    var v := body + Bracket(cap);
    if cap.Some? {
      assert v == body + "[" + cap.value + "]";
      TrimEndPadded(v, w2);
      BracketTailComplete(body, cap.value);
    } else {
      assert v == body;
      assert v[|v| - 1] == 't';
      TrimEndPadded(v, w2);
      NoBracketAfterKeyword(u);
    }
  }

  /** The end of `...@highlight-start` holds no `[n]` group. */
  lemma NoBracketAfterKeyword(head: string)
    ensures BracketTail(head + StartKeyword) == (head + StartKeyword, None)
  {
    var u := head + StartKeyword;
    assert u[|u| - 1] == 't';
  }

  /** A leading auto-start, `^\s*[#/]\s*@highlight-auto-start` with its
      optional `,\s*bgcolor=c`: the capture is the whole colour. */
  lemma AutoStartLeadingComplete(w1: string, m: char, w2: string, ws: string, cap: Option<string>, x: string)
    requires AllSpace(w1) && IsMarker(m) && AllSpace(w2) && AllSpace(ws)
    requires cap.Some? ==> IsColor(cap.value) && (x == [] || !IsColorChar(x[0]))
    requires cap.None? ==> x == [] || x[0] != ','
    ensures AutoStartMatch(w1 + [m] + w2 + AutoStartKeyword + ColorGroup(ws, cap) + x)
      == Some(Opener(true, cap, ""))
  {
    var line := w1 + [m] + w2 + AutoStartKeyword + ColorGroup(ws, cap) + x;
    LeadingShape(w1, m, w2, AutoStartKeyword, ColorGroup(ws, cap), x);
    DirectiveFacts.LeadingText(w1, m, w2, AutoStartKeyword + ColorGroup(ws, cap) + x, AutoStartKeyword);
    KeywordRest(AutoStartKeyword, ColorGroup(ws, cap), x);
    AutoStartColor(ws, cap, x);
    AutoStartMatchCases(line, "", None, "");
  }

  /** The optional colour group of an auto-start, followed by text that
      does not continue it, is captured as written. */
  lemma AutoStartColor(ws: string, cap: Option<string>, x: string)
    requires AllSpace(ws)
    requires cap.Some? ==> IsColor(cap.value) && (x == [] || !IsColorChar(x[0]))
    requires cap.None? ==> x == [] || x[0] != ','
    ensures LeadingColor(ColorGroup(ws, cap) + x) == cap
  {
    if cap.Some? {
      assert ColorGroup(ws, cap) + x == "," + ws + "bgcolor=" + cap.value + x;
      LeadingColorComplete(ws, cap.value, x);
    } else {
      assert ColorGroup(ws, cap) + x == x;
    }
  }

  /** The end of `...@highlight-auto-start` holds no colour group. */
  lemma NoColorAfterKeyword(head: string)
    ensures ColorTail(head + AutoStartKeyword) == (head + AutoStartKeyword, None)
  {
    var u := head + AutoStartKeyword;
    var p := head + "@highlight-auto-";
    assert u == p + "start";
    TrailingRunExact(p, "start", IsColorChar);
    assert u[..|u| - 5] == p;
    assert p[|p| - 1] == '-';
  }

  /** The end-anchored colour group of an auto-start after its keyword,
      with whitespace after it: right-trimming leaves the group, whose
      colour is captured as written. */
  lemma TrailingColor(u: string, ws: string, cap: Option<string>, w2: string)
    requires AllSpace(ws) && AllSpace(w2)
    requires cap.Some? ==> IsColor(cap.value)
    ensures ColorTail(TrimEnd(u + AutoStartKeyword + ColorGroup(ws, cap) + w2)) == (u + AutoStartKeyword, cap)
  {
    var body := u + AutoStartKeyword;
    if cap.Some? {
      TrailingColorGroup(body, ws, cap.value, w2);
    } else {
      assert body + ColorGroup(ws, cap) + w2 == body + w2;
      assert body[|body| - 1] == 't';
      TrimEndPadded(body, w2);
      NoColorAfterKeyword(u);
    }
  }

  /** A colour group followed by whitespace: right-trimming leaves the
      group, and the colour is captured as written. */
  lemma TrailingColorGroup(body: string, ws: string, c: string, w2: string)
    requires AllSpace(ws) && AllSpace(w2) && IsColor(c)
    ensures ColorTail(TrimEnd(body + ColorGroup(ws, Some(c)) + w2)) == (body, Some(c))
  {
    var v := body + "," + ws + "bgcolor=" + c;
    assert body + ColorGroup(ws, Some(c)) == v;
    assert v[|v| - 1] == c[|c| - 1];
    TrimEndPadded(v, w2);
    ColorTailComplete(body, ws, c);
  }

  /** An auto-start at the end of a line, on a line that is not itself a
      leading auto-start: the end-anchored alternative matches, the capture
      is the colour and the head is the text before the marker. */
  lemma AutoStartTrailingComplete(head: string, m: char, w1: string, ws: string,
                                  cap: Option<string>, w2: string)
    requires IsMarker(m) && AllSpace(w1) && AllSpace(ws) && AllSpace(w2)
    requires cap.Some? ==> IsColor(cap.value)
    requires AfterLeading(head + [m] + w1 + AutoStartKeyword + ColorGroup(ws, cap) + w2, AutoStartKeyword).None?
    ensures AutoStartMatch(head + [m] + w1 + AutoStartKeyword + ColorGroup(ws, cap) + w2)
      == Some(Opener(false, cap, head))
  {
    var line := head + [m] + w1 + AutoStartKeyword + ColorGroup(ws, cap) + w2;
    TrailingColor(head + [m] + w1, ws, cap, w2);
    TrailingAt(head, m, w1, AutoStartKeyword);
    AutoStartMatchCases(line, head + [m] + w1 + AutoStartKeyword, cap, head);
  }

  /** The first-line directive `^\s*[#/]\s*@highlight:\s*([\d,-]+)`: the
      capture is the whole run of range characters `s`, whatever follows
      it. */
  lemma RangesCaptureComplete(w1: string, m: char, w2: string, w3: string, s: string, x: string)
    requires AllSpace(w1) && IsMarker(m) && AllSpace(w2) && AllSpace(w3)
    requires |s| > 0 && Ranges.RangeText(s)
    requires x == [] || !Ranges.IsRangeChar(x[0])
    ensures RangesCapture(w1 + [m] + w2 + RangesKeyword + w3 + s + x) == Some(s)
  {
    var y := RangesKeyword + (w3 + s + x);
    assert w1 + [m] + w2 + RangesKeyword + w3 + s + x == w1 + [m] + w2 + y;
    DirectiveFacts.LeadingText(w1, m, w2, y, RangesKeyword);
    assert y[|RangesKeyword|..] == w3 + s + x;
    RangesRun(w3, s, x);
  }

  /** After the keyword and its padding, the capture takes exactly the
      run `s` of range characters. */
  lemma RangesRun(w3: string, s: string, x: string)
    requires AllSpace(w3) && |s| > 0 && Ranges.RangeText(s)
    requires x == [] || !Ranges.IsRangeChar(x[0])
    ensures LeadingRun(TrimStart(w3 + s + x), Ranges.IsRangeChar) == s
  {
    assert w3 + s + x == w3 + (s + x);
    assert s[0] in s;
    TrimStartPadded(w3, s + x);
    assert forall k | 0 <= k < |s| :: s[k] in s;
    LeadingRunExact(s, x, Ranges.IsRangeChar);
  }

  /** The level a start directive declares: its `[n]`, or 1. */
  function DeclaredLevel(cap: Option<string>): int
    requires cap.Some? ==> AllDigits(cap.value)
  {
    match cap
    case None => 1
    case Some(d) => Ranges.DigitsValue(d)
  }

  /** A line that, once right-trimmed, ends in a character other than the
      keyword's last one does not end in the keyword. */
  lemma EndsUnlike(v: string, w2: string, kw: string)
    requires |v| > 0 && !IsSpace(v[|v| - 1]) && AllSpace(w2)
    requires |kw| > 0 && v[|v| - 1] != kw[|kw| - 1]
    ensures EndHead(v + w2, kw) == None
  {
    TrimEndPadded(v, w2);
  }

  /** A text ending in `=c`, with `c` a colour, does not end in a keyword
      that starts with `@` and holds no `=`. */
  lemma ColorEndUnlike(p: string, c: string, kw: string)
    requires IsColor(c) && |kw| > 0 && kw[0] == '@' && '=' !in kw
    ensures BeforeTrailing(p + "=" + c, kw) == None
  {
    var s := p + "=" + c;
    assert s[|p|] == '=';
    assert forall k | |p| < k < |s| :: s[k] == c[k - |p| - 1];
    assert !IsColorChar('@');
    assert forall k | 0 <= k < |kw| :: kw[k] != '=' by {
      forall k | 0 <= k < |kw| ensures kw[k] != '=' {
        assert kw[k] in kw;
      }
    }
    if |kw| <= |s| {
      var j := |s| - |kw|;
      if j <= |p| {
        assert s[j..][|p| - j] == '=';
        assert kw[|p| - j] != '=';
      } else {
        assert s[j..][0] == c[j - |p| - 1];
      }
    }
  }

  /** The leading form of a line, regrouped around the keyword. */
  lemma LeadingShape(w1: string, m: char, w2: string, kw: string, g: string, w3: string)
    ensures w1 + [m] + w2 + kw + g + w3 == w1 + [m] + w2 + (kw + g + w3)
    ensures w1 + [m] + w2 + kw + g + w3 == (w1 + [m] + w2 + kw + g) + w3
  {
  }

  /** A leading explicit start is neither the first-line directive nor an
      end directive. */
  lemma LeadingStartNoEarlier(w1: string, m: char, w2: string, cap: Option<string>, w3: string)
    requires AllSpace(w1) && IsMarker(m) && AllSpace(w2) && AllSpace(w3)
    ensures var line := w1 + [m] + w2 + StartKeyword + Bracket(cap) + w3;
      RangesCapture(line).None? && EndHead(line, EndKeyword).None? && EndHead(line, AutoEndKeyword).None?
  {
    var y := StartKeyword + Bracket(cap) + w3;
    LeadingShape(w1, m, w2, StartKeyword, Bracket(cap), w3);
    assert y[0] == '@' && y[10] == '-';
    DirectiveFacts.LeadingText(w1, m, w2, y, RangesKeyword);
    var v := w1 + [m] + w2 + StartKeyword + Bracket(cap);
    assert v[|v| - 1] == (if cap.Some? then ']' else 't');
    EndsUnlike(v, w3, EndKeyword);
    EndsUnlike(v, w3, AutoEndKeyword);
  }

  /** `^\s*[#/]\s*@highlight-start[n]\s*`, on any line: an explicit start
      that declares `n` (1 without a group), and the line is dropped. */
  lemma ClassifyLeadingStart(i: nat, w1: string, m: char, w2: string, cap: Option<string>, w3: string)
    requires AllSpace(w1) && IsMarker(m) && AllSpace(w2) && AllSpace(w3)
    requires cap.Some? ==> |cap.value| > 0 && AllDigits(cap.value)
    ensures Classify(i, w1 + [m] + w2 + StartKeyword + Bracket(cap) + w3) == Open(DeclaredLevel(cap), None)
  {
    StartLeadingComplete(w1, m, w2, cap, w3);
    LeadingStartNoEarlier(w1, m, w2, cap, w3);
    DirectiveFacts.StartWins(i, w1 + [m] + w2 + StartKeyword + Bracket(cap) + w3);
  }

  /** An explicit start at the end of a line holds no end directive. */
  lemma TrailingStartNoEarlier(head: string, m: char, w1: string, cap: Option<string>, w2: string)
    requires AllSpace(w2)
    ensures var line := head + [m] + w1 + StartKeyword + Bracket(cap) + w2;
      EndHead(line, EndKeyword).None? && EndHead(line, AutoEndKeyword).None?
  {
    var v := head + [m] + w1 + StartKeyword + Bracket(cap);
    assert v[|v| - 1] == (if cap.Some? then ']' else 't');
    EndsUnlike(v, w2, EndKeyword);
    EndsUnlike(v, w2, AutoEndKeyword);
  }

  /** `head [#/]\s*@highlight-start[n]\s*`, on a line that is not itself a
      leading start (nor, on line 0, the first-line directive): an explicit
      start that declares `n`, and `head` is kept, right-trimmed. */
  lemma ClassifyTrailingStart(i: nat, head: string, m: char, w1: string, cap: Option<string>, w2: string)
    requires IsMarker(m) && AllSpace(w1) && AllSpace(w2)
    requires cap.Some? ==> |cap.value| > 0 && AllDigits(cap.value)
    requires AfterLeading(head + [m] + w1 + StartKeyword + Bracket(cap) + w2, StartKeyword).None?
    requires i == 0 ==> RangesCapture(head + [m] + w1 + StartKeyword + Bracket(cap) + w2).None?
    ensures Classify(i, head + [m] + w1 + StartKeyword + Bracket(cap) + w2)
      == Open(DeclaredLevel(cap), Some(TrimEnd(head)))
  {
    StartTrailingComplete(head, m, w1, cap, w2);
    TrailingStartNoEarlier(head, m, w1, cap, w2);
    DirectiveFacts.StartWins(i, head + [m] + w1 + StartKeyword + Bracket(cap) + w2);
  }

  /** The colour group at the end of an auto-start rules out the end
      directives and an explicit start. */
  lemma ColorGroupIsNoOther(body: string, ws: string, c: string, w2: string)
    requires AllSpace(ws) && AllSpace(w2) && IsColor(c)
    ensures var line := body + ColorGroup(ws, Some(c)) + w2;
      EndHead(line, EndKeyword).None? && EndHead(line, AutoEndKeyword).None?
      && BeforeTrailing(BracketTail(TrimEnd(line)).0, StartKeyword).None?
  {
    var p := body + "," + ws + "bgcolor";
    var v := p + "=" + c;
    assert body + ColorGroup(ws, Some(c)) == v;
    assert v[|v| - 1] == c[|c| - 1];
    TrimEndPadded(v, w2);
    ColorEndUnlike(p, c, EndKeyword);
    ColorEndUnlike(p, c, AutoEndKeyword);
    ColorEndUnlike(p, c, StartKeyword);
  }

  /** Without a colour group, the auto-start keyword at the end rules out
      the end directives and an explicit start. */
  lemma BareAutoStartIsNoOther(body: string, w2: string)
    requires HasSuffix(body, AutoStartKeyword) && AllSpace(w2)
    ensures var line := body + w2;
      EndHead(line, EndKeyword).None? && EndHead(line, AutoEndKeyword).None?
      && BeforeTrailing(BracketTail(TrimEnd(line)).0, StartKeyword).None?
  {
    assert body[|body| - 1] == 't';
    TrimEndPadded(body, w2);
    assert body[|body| - |StartKeyword|] == 'l';
  }

  /** An auto-start keyword at the end of a line, with or without its
      colour group, rules out the end directives and an explicit start. */
  lemma TrailingAutoStartIsNoOther(body: string, ws: string, cap: Option<string>, w2: string)
    requires HasSuffix(body, AutoStartKeyword) && AllSpace(ws) && AllSpace(w2)
    requires cap.Some? ==> IsColor(cap.value)
    ensures var line := body + ColorGroup(ws, cap) + w2;
      EndHead(line, EndKeyword).None? && EndHead(line, AutoEndKeyword).None?
      && BeforeTrailing(BracketTail(TrimEnd(line)).0, StartKeyword).None?
  {
    if cap.Some? {
      ColorGroupIsNoOther(body, ws, cap.value, w2);
    } else {
      assert body + ColorGroup(ws, cap) == body;
      BareAutoStartIsNoOther(body, w2);
    }
  }

  /** A leading auto-start is not the first-line directive, not an end
      directive and not an explicit start. */
  lemma LeadingAutoStartNoEarlier(w1: string, m: char, w2: string, ws: string, cap: Option<string>, w3: string)
    requires AllSpace(w1) && IsMarker(m) && AllSpace(w2) && AllSpace(ws) && AllSpace(w3)
    requires cap.Some? ==> IsColor(cap.value)
    ensures var line := w1 + [m] + w2 + AutoStartKeyword + ColorGroup(ws, cap) + w3;
      RangesCapture(line).None? && EndHead(line, EndKeyword).None? && EndHead(line, AutoEndKeyword).None?
      && AfterLeading(line, StartKeyword).None?
      && BeforeTrailing(BracketTail(TrimEnd(line)).0, StartKeyword).None?
  {
    var y := AutoStartKeyword + ColorGroup(ws, cap) + w3;
    LeadingShape(w1, m, w2, AutoStartKeyword, ColorGroup(ws, cap), w3);
    assert y[0] == '@' && y[10] == '-' && y[11] == 'a';
    assert !(RangesKeyword <= y) by { assert y[10] != RangesKeyword[10]; }
    assert !(StartKeyword <= y) by { assert y[11] != StartKeyword[11]; }
    DirectiveFacts.LeadingText(w1, m, w2, y, RangesKeyword);
    DirectiveFacts.LeadingText(w1, m, w2, y, StartKeyword);
    var body := w1 + [m] + w2 + AutoStartKeyword;
    assert HasSuffix(body, AutoStartKeyword);
    TrailingAutoStartIsNoOther(body, ws, cap, w3);
  }

  /** `^\s*[#/]\s*@highlight-auto-start(,\s*bgcolor=c)?\s*`, on any
      line: an auto-start with colour `c` (or none), and the line is
      dropped. */
  lemma ClassifyLeadingAutoStart(i: nat, w1: string, m: char, w2: string, ws: string, cap: Option<string>, w3: string)
    requires AllSpace(w1) && IsMarker(m) && AllSpace(w2) && AllSpace(ws) && AllSpace(w3)
    requires cap.Some? ==> IsColor(cap.value)
    ensures Classify(i, w1 + [m] + w2 + AutoStartKeyword + ColorGroup(ws, cap) + w3) == AutoOpen(cap, None)
  {
    var line := w1 + [m] + w2 + AutoStartKeyword + ColorGroup(ws, cap) + w3;
    AutoStartLeadingComplete(w1, m, w2, ws, cap, w3);
    LeadingAutoStartNoEarlier(w1, m, w2, ws, cap, w3);
    StartMatchCases(line, "", None, "");
    DirectiveFacts.AutoStartWins(i, line);
  }

  /** An auto-start at the end of a line holds no end directive and no
      end-anchored explicit start. */
  lemma TrailingAutoStartNoEarlier(head: string, m: char, w1: string, ws: string,
                                   cap: Option<string>, w2: string)
    requires AllSpace(ws) && AllSpace(w2)
    requires cap.Some? ==> IsColor(cap.value)
    ensures var line := head + [m] + w1 + AutoStartKeyword + ColorGroup(ws, cap) + w2;
      EndHead(line, EndKeyword).None? && EndHead(line, AutoEndKeyword).None?
      && BeforeTrailing(BracketTail(TrimEnd(line)).0, StartKeyword).None?
  {
    var body := head + [m] + w1 + AutoStartKeyword;
    assert HasSuffix(body, AutoStartKeyword);
    TrailingAutoStartIsNoOther(body, ws, cap, w2);
  }

  /** `head [#/]\s*@highlight-auto-start(,\s*bgcolor=c)?\s*`, on a line
      that is not itself a leading start or auto-start (nor, on line 0, the
      first-line directive): an auto-start with colour `c` (or none), and
      `head` is kept, right-trimmed. */
  lemma ClassifyTrailingAutoStart(i: nat, head: string, m: char, w1: string, ws: string,
                                  cap: Option<string>, w2: string)
    requires IsMarker(m) && AllSpace(w1) && AllSpace(ws) && AllSpace(w2)
    requires cap.Some? ==> IsColor(cap.value)
    requires AfterLeading(head + [m] + w1 + AutoStartKeyword + ColorGroup(ws, cap) + w2, AutoStartKeyword).None?
    requires AfterLeading(head + [m] + w1 + AutoStartKeyword + ColorGroup(ws, cap) + w2, StartKeyword).None?
    requires i == 0 ==> RangesCapture(head + [m] + w1 + AutoStartKeyword + ColorGroup(ws, cap) + w2).None?
    ensures Classify(i, head + [m] + w1 + AutoStartKeyword + ColorGroup(ws, cap) + w2)
      == AutoOpen(cap, Some(TrimEnd(head)))
  {
    var line := head + [m] + w1 + AutoStartKeyword + ColorGroup(ws, cap) + w2;
    AutoStartTrailingComplete(head, m, w1, ws, cap, w2);
    TrailingAutoStartNoEarlier(head, m, w1, ws, cap, w2);
    StartMatchCases(line, "", None, "");
    DirectiveFacts.AutoStartWins(i, line);
  }

  /** An auto-end keyword at the end of a line is not the end keyword:
      the fourteenth character from its end is `l`, not `@`. */
  lemma AutoEndNotEnd(u: string, w: string)
    requires HasSuffix(u, AutoEndKeyword) && AllSpace(w)
    ensures EndHead(u + w, EndKeyword).None?
  {
    assert u[|u| - 1] == 'd';
    TrimEndPadded(u, w);
    assert u[|u| - |EndKeyword|] == 'l';
  }

  /** `^\s*[#/]\s*@highlight-auto-end\s*$`, on any line: the auto level is
      closed and the line is dropped. */
  lemma ClassifyStandaloneAutoEnd(i: nat, w1: string, m: char, w2: string, w3: string)
    requires AllSpace(w1) && IsMarker(m) && AllSpace(w2) && AllSpace(w3)
    ensures Classify(i, w1 + [m] + w2 + AutoEndKeyword + w3) == CloseDrop
  {
    DirectiveFacts.AutoEndNotRanges(w1, m, w2, w3);
    var u := w1 + [m] + w2 + AutoEndKeyword;
    assert HasSuffix(u, AutoEndKeyword);
    AutoEndNotEnd(u, w3);
    DirectiveFacts.EndHeadComplete(w1, m, w2, AutoEndKeyword, w3);
  }

  /** `head [#/]\s*@highlight-auto-end\s*$` with text in `head`, on a line
      that is not the first-line directive: the auto level is closed and
      `head` is kept, right-trimmed. */
  lemma ClassifyTrailingAutoEnd(i: nat, head: string, m: char, w1: string, w2: string)
    requires IsMarker(m) && AllSpace(w1) && AllSpace(w2) && !AllSpace(head)
    requires i == 0 ==> RangesCapture(head + [m] + w1 + AutoEndKeyword + w2).None?
    ensures Classify(i, head + [m] + w1 + AutoEndKeyword + w2) == CloseKeep(TrimEnd(head))
  {
    var u := head + [m] + w1 + AutoEndKeyword;
    assert HasSuffix(u, AutoEndKeyword);
    AutoEndNotEnd(u, w2);
    DirectiveFacts.EndHeadComplete(head, m, w1, AutoEndKeyword, w2);
  }

  /** `head [#/]\s*@highlight-end\s*$`, whatever `head` is, on a line that
      is not the first-line directive: the level is closed and `head` is
      kept, right-trimmed (empty when `head` is only whitespace). */
  lemma ClassifyTrailingEnd(i: nat, head: string, m: char, w1: string, w2: string)
    requires IsMarker(m) && AllSpace(w1) && AllSpace(w2)
    requires i == 0 ==> RangesCapture(head + [m] + w1 + EndKeyword + w2).None?
    ensures Classify(i, head + [m] + w1 + EndKeyword + w2) == CloseKeep(TrimEnd(head))
  {
    DirectiveFacts.EndHeadComplete(head, m, w1, EndKeyword, w2);
  }

  /** `^\s*[#/]\s*@highlight:\s*s` on the first line, whatever follows the
      range text `s`: the line lists the numbers `s` parses to. */
  lemma ClassifyFirstLineRanges(w1: string, m: char, w2: string, w3: string, s: string, x: string)
    requires AllSpace(w1) && IsMarker(m) && AllSpace(w2) && AllSpace(w3)
    requires |s| > 0 && Ranges.RangeText(s)
    requires x == [] || !Ranges.IsRangeChar(x[0])
    ensures Classify(0, w1 + [m] + w2 + RangesKeyword + w3 + s + x) == Directive.Ranges(Ranges.ParseRanges(s))
  {
    RangesCaptureComplete(w1, m, w2, w3, s, x);
  }

  lemma StartLiteral()
    ensures "" + ['#'] + " " + StartKeyword + Bracket(Some("3")) + "" == "# @highlight-start[3]"
  {
  }

  /** `# @highlight-start[3]` opens an explicit level 3 and is dropped. */
  lemma StartExample(i: nat)
    ensures Classify(i, "# @highlight-start[3]") == Open(3, None)
  {
    ClassifyLeadingStart(i, "", '#', " ", Some("3"), "");
    StartLiteral();
  }

  lemma AutoStartLiteral()
    ensures "x " + ['#'] + " " + AutoStartKeyword + ColorGroup("", Some("#ff0000")) + ""
      == "x # @highlight-auto-start,bgcolor=#ff0000"
  {
    AutoStartHead();
    assert ColorGroup("", Some("#ff0000")) == ",bgcolor=#ff0000";
    assert "x # @highlight-auto-start" + ",bgcolor=#ff0000" == "x # @highlight-auto-start,bgcolor=#ff0000";
  }

  lemma AutoStartHead()
    ensures "x " + ['#'] + " " + AutoStartKeyword == "x # @highlight-auto-start"
  {
    assert "x " + ['#'] + " " == "x # ";
  }

  lemma AutoStartKept()
    ensures TrimEnd("x ") == "x"
  {
    assert "x " == "x" + " ";
    TrimEndPadded("x", " ");
  }

  /** `x # @highlight-auto-start,bgcolor=#ff0000` opens an auto level with
      that colour and keeps `x`. */
  lemma AutoStartExample(i: nat)
    ensures Classify(i, "x # @highlight-auto-start,bgcolor=#ff0000") == AutoOpen(Some("#ff0000"), Some("x"))
  {
    AutoStartLiteral();
    CodeFirst("x # @highlight-auto-start,bgcolor=#ff0000");
    AutoStartKept();
    ClassifyTrailingAutoStart(i, "x ", '#', " ", "", Some("#ff0000"), "");
  }

  lemma RangesLiteral()
    ensures "" + ['#'] + " " + RangesKeyword + " " + "1,3-4" + "" == "# @highlight: 1,3-4"
  {
  }

  /** `# @highlight: 1,3-4` on the first line lists lines 1, 3 and 4. */
  lemma RangesExample()
    ensures Classify(0, "# @highlight: 1,3-4") == Directive.Ranges([1, 3, 4])
  {
    ClassifyFirstLineRanges("", '#', " ", " ", "1,3-4", "");
    RangesLiteral();
    Ranges.Example();
  }
}
