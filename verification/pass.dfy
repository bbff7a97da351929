/** The directive pass of `highlightCodeBlock` (dev/shiki-plugin.js:183-330):
    one forward fold over the lines of a code block that drops or keeps each
    line, keeps a stack of open highlight spans, and records which output
    line is highlighted with which span. */
module Pass {
  import opened Opt
  import opened Text
  import opened Directives

  /** An entry of `highlightStack`: `{level, bgcolor}`. */
  datatype Span = Span(level: int, bgcolor: Option<string>)

  /** A value of `customHighlightLines`: the plain number `1` that the
      first-line directive stores, or a span copied from the stack. */
  datatype Mark = Level(n: int) | Of(span: Span)

  /** The loop state: `filteredLines`, `customHighlightLines`,
      `highlightStack` and `lineOffset`. */
  datatype State = State(out: seq<string>, marks: map<int, Mark>, stack: seq<Span>, offset: int)

  const Initial := State([], map[], [], 0)

  /** `highlightStack.pop()`: popping an empty stack changes nothing. */
  function Pop(stack: seq<Span>): seq<Span> {
    if |stack| == 0 then stack else stack[..|stack| - 1]
  }

  /** `ranges.forEach(n => marks[n] = m)` */
  function MarkAll(marks: map<int, Mark>, keys: seq<int>, m: Mark): (r: map<int, Mark>)
    ensures forall k | k in keys :: k in r && r[k] == m
    ensures forall k | k in r && k !in keys :: k in marks && r[k] == marks[k]
    ensures forall k | k in marks :: k in r
    decreases |keys|
  {
    if |keys| == 0 then marks else MarkAll(marks[keys[0] := m], keys[1..], m)
  }

  /** The line was appended to the output and nothing was dropped. */
  predicate Kept(st: State, r: State) {
    |r.out| == |st.out| + 1 && r.out[..|st.out|] == st.out && r.offset == st.offset
  }

  /** The line was dropped: `lineOffset++` and the output unchanged. */
  predicate Dropped(st: State, r: State) {
    r.out == st.out && r.offset == st.offset + 1
  }

  /** Whether the directive makes the line disappear from the output; this
      depends on the line alone, never on the stack. */
  predicate Drops(d: Directive) {
    d.Ranges? || d.CloseDrop? || (d.Open? && d.declared >= 1 && d.kept.None?) || (d.AutoOpen? && d.kept.None?)
  }

  function Push(st: State, span: Span, kept: Option<string>): State {
    match kept
    case None => st.(stack := st.stack + [span], offset := st.offset + 1)
    case Some(c) => st.(stack := st.stack + [span], out := st.out + [c])
  }

  /** The mark a kept line gets: the innermost open span at position
      `i - lineOffset + 1`, or nothing when no span is open. */
  function MarkTop(st: State, i: int): map<int, Mark> {
    if |st.stack| > 0 then st.marks[i - st.offset + 1 := Of(st.stack[|st.stack| - 1])] else st.marks
  }

  /** The effect of line `i`, once classified as `d`. Every line is either
      dropped or appended exactly once; a mark, if any, goes to the position
      `i - lineOffset + 1` of the appended line; only the top of the stack
      changes. */
  function Apply(st: State, i: nat, line: string, d: Directive): (r: State)
    ensures Kept(st, r) != Dropped(st, r)
    ensures Dropped(st, r) <==> Drops(d)
    ensures !d.Ranges? ==> (r.marks == st.marks
      || (Kept(st, r) && i - st.offset + 1 in r.marks
          && r.marks == st.marks[i - st.offset + 1 := r.marks[i - st.offset + 1]]))
    ensures r.stack == st.stack || r.stack == Pop(st.stack)
      || (|r.stack| == |st.stack| + 1 && r.stack[..|st.stack|] == st.stack)
  {
    match d
    case Ranges(keys) =>
      st.(marks := MarkAll(st.marks, keys, Level(1)), offset := st.offset + 1)
    case CloseKeep(cleaned) =>
      State(st.out + [cleaned], MarkTop(st, i), Pop(st.stack), st.offset)
    case CloseDrop =>
      st.(stack := Pop(st.stack), offset := st.offset + 1)
    case Open(level, kept) =>
      if level < 1 then st.(out := st.out + [line])
      else Push(st, Span(level, None), kept)
    case AutoOpen(bgcolor, kept) =>
      Push(st, Span(|st.stack| + 1, bgcolor), kept)
    case Content =>
      st.(out := st.out + [line], marks := MarkTop(st, i))
  }

  /** The directive of every line, in the order the loop meets them. */
  function Classified(lines: seq<string>): (ds: seq<Directive>)
    ensures |ds| == |lines|
  {
    seq(|lines|, j requires 0 <= j < |lines| => Classify(j, lines[j]))
  }

  /** The state after the first `n` lines, each line applied with its
      directive from `ds`. After line i the output holds i + 1 - lineOffset
      lines: the loop's line accounting. */
  function Run(lines: seq<string>, ds: seq<Directive>, n: nat): (r: State)
    requires |ds| == |lines| && n <= |lines|
    ensures |r.out| + r.offset == n
    ensures 0 <= r.offset <= n
  {
    if n == 0 then Initial else Apply(Run(lines, ds, n - 1), n - 1, lines[n - 1], ds[n - 1])
  }

  /** The whole pass over `code.split('\n')`: the text handed to the
      highlighter, `filteredLines.join('\n')`, and the highlight map. */
  function FilterCode(code: string): (string, map<int, Mark>) {
    var lines := Split(code, '\n');
    var r := Run(lines, Classified(lines), |lines|);
    (Join(r.out, '\n'), r.marks)
  }
}
