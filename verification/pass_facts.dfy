/** What the directive pass guarantees over a whole code block. The lemmas
    about the fold hold for any classification of the lines; the few that
    need the recogniser's own facts say so in their requirements, and
    `Classified` meets those (see the bridging lemmas at the end). */
module PassFacts {
  import opened Opt
  import opened Text
  import opened Directives
  import DirectiveFacts
  import opened Pass

  /** How many of the first `n` lines are directive lines that vanish. */
  function DropCount(ds: seq<Directive>, n: nat): nat
    requires n <= |ds|
  {
    if n == 0 then 0 else DropCount(ds, n - 1) + (if Drops(ds[n - 1]) then 1 else 0)
  }

  /** `lineOffset` counts exactly the dropped lines, and the output holds
      every other line: its length is the input length minus the drops. */
  lemma {:induction false} OutputLength(lines: seq<string>, ds: seq<Directive>, n: nat)
    requires |ds| == |lines| && n <= |lines|
    ensures Run(lines, ds, n).offset == DropCount(ds, n)
    ensures |Run(lines, ds, n).out| == n - DropCount(ds, n)
  {
    if n > 0 {
      OutputLength(lines, ds, n - 1);
    }
  }

  /** The key `i - lineOffset + 1` that line i records is the 1-based
      position that line takes in the output. */
  lemma MarkKeyIsOutputPosition(lines: seq<string>, ds: seq<Directive>, i: nat)
    requires |ds| == |lines| && i < |lines| && !ds[i].Ranges?
    ensures var before, after := Run(lines, ds, i), Run(lines, ds, i + 1);
      after.marks == before.marks
      || (|after.out| == |before.out| + 1 && |after.out| in after.marks
          && after.marks == before.marks[|after.out| := after.marks[|after.out|]])
  {
  }

  /** When every line is plain content, the output is the input and
      nothing is marked. */
  lemma {:induction false} ContentIsIdentity(lines: seq<string>, ds: seq<Directive>, n: nat)
    requires |ds| == |lines| && n <= |lines|
    requires forall j | 0 <= j < |ds| :: ds[j] == Content
    ensures Run(lines, ds, n) == State(lines[..n], map[], [], 0)
  {
    if n > 0 {
      ContentIsIdentity(lines, ds, n - 1);
      assert lines[..n - 1] + [lines[n - 1]] == lines[..n];
    }
  }

  /** Every level on the stack and in the map is at least 1. */
  predicate PositiveLevels(st: State) {
    (forall k | 0 <= k < |st.stack| :: st.stack[k].level >= 1)
    && (forall key | key in st.marks :: MarkLevel(st.marks[key]) >= 1)
  }

  function MarkLevel(m: Mark): int {
    match m
    case Level(n) => n
    case Of(span) => span.level
  }

  lemma {:induction false} LevelsStayPositive(lines: seq<string>, ds: seq<Directive>, n: nat)
    requires |ds| == |lines| && n <= |lines|
    ensures PositiveLevels(Run(lines, ds, n))
  {
    if n > 0 {
      LevelsStayPositive(lines, ds, n - 1);
      ApplyKeepsPositive(Run(lines, ds, n - 1), n - 1, lines[n - 1], ds[n - 1]);
    }
  }

  lemma ApplyKeepsPositive(st: State, i: nat, line: string, d: Directive)
    requires PositiveLevels(st)
    ensures PositiveLevels(Apply(st, i, line, d))
  {
    var r := Apply(st, i, line, d);
    forall k | 0 <= k < |r.stack|
      ensures r.stack[k].level >= 1
    {
      if k < |st.stack| {
        assert r.stack[k] == st.stack[k];
      }
    }
  }

  /** The stack holds levels 1, 2, ..., depth, bottom to top. */
  predicate Consecutive(stack: seq<Span>) {
    forall k | 0 <= k < |stack| :: stack[k].level == k + 1
  }

  /** An explicit `@highlight-start[n]` whose level is not the one the
      validation expects; it only logs, and the declared level is pushed. */
  predicate Skewed(st: State, d: Directive) {
    d.Open? && d.declared >= 1 && d.declared != |st.stack| + 1
  }

  lemma ApplyKeepsConsecutive(st: State, i: nat, line: string, d: Directive)
    requires Consecutive(st.stack) && !Skewed(st, d)
    ensures Consecutive(Apply(st, i, line, d).stack)
  {
    var r := Apply(st, i, line, d);
    forall k | 0 <= k < |r.stack|
      ensures r.stack[k].level == k + 1
    {
      if k < |st.stack| {
        assert r.stack[k] == st.stack[k];
      }
    }
  }

  /** No explicit start among the first `n` lines is skewed against the
      depth the pass has reached when it meets it. */
  predicate NoSkew(lines: seq<string>, ds: seq<Directive>, n: nat)
    requires |ds| == |lines| && n <= |lines|
  {
    n == 0 || (NoSkew(lines, ds, n - 1) && !Skewed(Run(lines, ds, n - 1), ds[n - 1]))
  }

  /** When every explicit level is the one the validation expects
      (auto-starts always are), the stack always holds consecutive levels
      from 1. */
  lemma {:induction false} ExpectedLevelsNestConsecutively(lines: seq<string>, ds: seq<Directive>, n: nat)
    requires |ds| == |lines| && n <= |lines|
    requires NoSkew(lines, ds, n)
    ensures Consecutive(Run(lines, ds, n).stack)
  {
    if n > 0 {
      ExpectedLevelsNestConsecutively(lines, ds, n - 1);
      ApplyKeepsConsecutive(Run(lines, ds, n - 1), n - 1, lines[n - 1], ds[n - 1]);
    }
  }

  /** A run of auto-starts alone opens levels 1, 2, 3, ... */
  lemma {:induction false} AutoStartsCountUp(lines: seq<string>, ds: seq<Directive>, n: nat)
    requires |ds| == |lines| && n <= |lines|
    requires forall j | 0 <= j < n :: ds[j].AutoOpen?
    ensures |Run(lines, ds, n).stack| == n
    ensures forall k | 0 <= k < n :: Run(lines, ds, n).stack[k].level == k + 1
  {
    if n > 0 {
      AutoStartsCountUp(lines, ds, n - 1);
      var st := Run(lines, ds, n - 1);
      assert Consecutive(st.stack);
      ApplyKeepsConsecutive(st, n - 1, lines[n - 1], ds[n - 1]);
      AutoOpenGrows(st, n - 1, lines[n - 1], ds[n - 1]);
    }
  }

  lemma AutoOpenGrows(st: State, i: nat, line: string, d: Directive)
    requires d.AutoOpen?
    ensures |Apply(st, i, line, d).stack| == |st.stack| + 1
  {
  }

  /** The first-line `@highlight:` directive is dropped and gives every
      listed number the plain level 1, keyed by the literal number with no
      offset adjustment. */
  lemma FirstLineRanges(line: string, keys: seq<int>)
    ensures var r := Apply(Initial, 0, line, Directive.Ranges(keys));
      r.out == [] && r.offset == 1 && r.stack == []
      && (forall key :: key in r.marks <==> key in keys)
      && (forall key | key in r.marks :: r.marks[key] == Level(1))
  {
  }

  /** `@highlight-start[n]`: a level below 1 keeps the line untouched and
      opens nothing; otherwise the DECLARED level is pushed, whatever the
      depth. */
  lemma ExplicitStart(st: State, i: nat, line: string, level: int, kept: Option<string>)
    ensures var r := Apply(st, i, line, Open(level, kept));
      (level < 1 ==> r == st.(out := st.out + [line]))
      && (level >= 1 ==>
            r.stack == st.stack + [Span(level, None)] && r.marks == st.marks
            && (kept.None? ==> Dropped(st, r))
            && (kept.Some? ==> r.out == st.out + [kept.value] && r.offset == st.offset))
  {
  }

  /** `@highlight-auto-start`: the pushed level is the depth plus one. */
  lemma AutoStart(st: State, i: nat, line: string, bgcolor: Option<string>, kept: Option<string>)
    ensures var r := Apply(st, i, line, AutoOpen(bgcolor, kept));
      r.stack == st.stack + [Span(|st.stack| + 1, bgcolor)] && r.marks == st.marks
  {
  }

  /** A trailing close records the innermost span at the kept line's
      position, then pops it; a standalone close only pops. Nothing below
      the top of the stack is touched. */
  lemma Close(st: State, i: nat, line: string, d: Directive)
    requires |st.out| + st.offset == i
    requires d.CloseKeep? || d.CloseDrop?
    ensures var r := Apply(st, i, line, d);
      r.stack == Pop(st.stack)
      && (d.CloseDrop? ==> r.marks == st.marks && Dropped(st, r))
      && (d.CloseKeep? ==>
            r.out == st.out + [d.cleaned]
            && r.marks == (if |st.stack| == 0 then st.marks
                           else st.marks[|r.out| := Of(st.stack[|st.stack| - 1])]))
  {
  }

  /** A content line (lines 318-326) is kept verbatim, and while a span
      is open it is marked with the innermost one at its output position;
      the stack and the offset do not change. */
  lemma ContentLine(st: State, i: nat, line: string)
    requires |st.out| + st.offset == i
    ensures Apply(st, i, line, Content)
      == st.(out := st.out + [line],
             marks := if |st.stack| == 0 then st.marks
                      else st.marks[|st.out| + 1 := Of(st.stack[|st.stack| - 1])])
  {
  }

  /** An opener, one content line and a closer: the content line is
      marked with the span the opener pushed, at its output position, and
      the stack is back where it was. */
  lemma OpenLineClose(st: State, i: nat, a: string, b: string, c: string, bgcolor: Option<string>)
    requires |st.out| + st.offset == i
    ensures var s1 := Apply(st, i, a, AutoOpen(bgcolor, None));
      var s2 := Apply(s1, i + 1, b, Content);
      var r := Apply(s2, i + 2, c, CloseDrop);
      r.out == st.out + [b] && r.stack == st.stack && r.offset == st.offset + 2
      && r.marks == st.marks[|st.out| + 1 := Of(Span(|st.stack| + 1, bgcolor))]
  {
    var s1 := Apply(st, i, a, AutoOpen(bgcolor, None));
    assert s1.stack == st.stack + [Span(|st.stack| + 1, bgcolor)];
    var s2 := Apply(s1, i + 1, b, Content);
    assert s2.stack == s1.stack;
    assert Pop(s2.stack) == st.stack;
  }

  /** Every key the stack-driven paths record names a line of the output;
      only the first-line directive can name other numbers. */
  lemma {:induction false} KeysAddressOutput(lines: seq<string>, ds: seq<Directive>, n: nat)
    requires |ds| == |lines| && 0 < n <= |lines|
    requires forall j | 0 < j < |ds| :: !ds[j].Ranges?
    ensures forall key | key in Run(lines, ds, n).marks ::
      (1 <= key <= |Run(lines, ds, n).out|) || (ds[0].Ranges? && key in ds[0].lines)
  {
    if n > 1 {
      KeysAddressOutput(lines, ds, n - 1);
      var st := Run(lines, ds, n - 1);
      var r := Run(lines, ds, n);
      assert |r.out| >= |st.out|;
    }
  }

  /** The text a directive keeps is a prefix of its line. */
  predicate KeepsPrefix(d: Directive, line: string) {
    (d.CloseKeep? ==> d.cleaned <= line)
    && (d.Open? && d.kept.Some? ==> d.kept.value <= line)
    && (d.AutoOpen? && d.kept.Some? ==> d.kept.value <= line)
  }

  /** The kept lines are prefixes of input lines, so they hold no line
      break when the input lines hold none. */
  lemma {:induction false} KeptLinesUnbroken(lines: seq<string>, ds: seq<Directive>, n: nat)
    requires |ds| == |lines| && n <= |lines|
    requires forall j | 0 <= j < |lines| :: '\n' !in lines[j] && KeepsPrefix(ds[j], lines[j])
    ensures forall k | 0 <= k < |Run(lines, ds, n).out| :: '\n' !in Run(lines, ds, n).out[k]
  {
    if n > 0 {
      KeptLinesUnbroken(lines, ds, n - 1);
      var st := Run(lines, ds, n - 1);
      var r := Run(lines, ds, n);
      var line := lines[n - 1];
      if Kept(st, r) {
        var last := r.out[|st.out|];
        assert last <= line;
        if '\n' in last {
          DirectiveFacts.InPrefix(last, line, '\n');
        }
        forall k | 0 <= k < |r.out|
          ensures '\n' !in r.out[k]
        {
          if k < |st.out| {
            assert r.out[k] == st.out[k];
          }
        }
      }
    }
  }

  /** The recogniser meets the requirements above: only line 0 can carry
      `@highlight:`, and kept texts are prefixes of their lines. */
  lemma ClassifiedFacts(lines: seq<string>)
    ensures forall j | 0 < j < |lines| :: !Classified(lines)[j].Ranges?
    ensures forall j | 0 <= j < |lines| :: KeepsPrefix(Classified(lines)[j], lines[j])
  {
  }

  /** Lines without `@` classify as content. */
  lemma ClassifiedPlain(lines: seq<string>)
    requires forall j | 0 <= j < |lines| :: '@' !in lines[j]
    ensures forall j | 0 <= j < |lines| :: Classified(lines)[j] == Content
  {
    forall j | 0 <= j < |lines|
      ensures Classified(lines)[j] == Content
    {
      DirectiveFacts.NoAtIsContent(j, lines[j]);
    }
  }

  /** For a block without directives the text handed to the highlighter is
      the original text and the highlight map is empty. */
  lemma NoDirectiveText(code: string)
    requires '@' !in code
    ensures FilterCode(code) == (code, map[])
  {
    var lines := Split(code, '\n');
    forall j | 0 <= j < |lines|
      ensures '@' !in lines[j]
    {
      if '@' in lines[j] {
        SplitChars(code, '\n', j, '@');
      }
    }
    ClassifiedPlain(lines);
    ContentIsIdentity(lines, Classified(lines), |lines|);
    assert lines[..|lines|] == lines;
    JoinSplit(code, '\n');
  }

  /** The text handed to the highlighter splits back into exactly the kept
      lines, so the map's keys 1..|kept| address its lines. */
  lemma FilteredTextLines(code: string)
    requires var lines := Split(code, '\n'); |Run(lines, Classified(lines), |lines|).out| >= 1
    ensures var lines := Split(code, '\n');
      Split(FilterCode(code).0, '\n') == Run(lines, Classified(lines), |lines|).out
  {
    var lines := Split(code, '\n');
    ClassifiedFacts(lines);
    KeptLinesUnbroken(lines, Classified(lines), |lines|);
    SplitJoin(Run(lines, Classified(lines), |lines|).out, '\n');
  }
}
