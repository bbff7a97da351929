# Highlight directives of the Shiki plugin for Documenter.jl

This project models the part of `dev/shiki-plugin.js` that decides what a
code block looks like before and after Shiki colours it. It does not model
the Shiki call itself. The modelled parts are:

- **the directive pass** of `highlightCodeBlock`. It splits the block on
  `\n` and recognises comment directives on each line:
  - `@highlight: 1,3-4` on the first line;
  - `@highlight-start[n]`, `@highlight-auto-start[,bgcolor=…]`,
    `@highlight-end` and `@highlight-auto-end`, each either alone on a
    line or at a line's end.

  The pass drops or strips the directive lines, keeps a stack of open
  spans, and builds the map from output line number to highlight;
- **`parseHighlightRanges`**, the parser of `1,3-4`;
- **the per-line decoration** of `addHighlightToLines`. A line gets either
  the class `highlight-level-k` with `k` in 1..4, or an inline background
  colour;
- **the language gate**:
  - `nohighlight` blocks are skipped;
  - `julia-repl` is highlighted as `julia`;
  - `text` and unlisted languages are left alone.

Modules and files:

| file | module | what |
|---|---|---|
| `option.dfy` | `Opt` | `Option` |
| `text.dfy` | `Text` | JavaScript `\s`, `trim`, `split`/`join`, greedy character runs |
| `ranges.dfy` | `Ranges` | `parseInt` on digit strings, `parseHighlightRanges` |
| `directives.dfy` | `Directives`, `DirectiveFacts` | the regexes of the loop as string parsers; `Classify`, the first test that matches a line |
| `pass.dfy` | `Pass` | the loop state and one step of the loop; `Run`, the fold; `FilterCode` |
| `pass_facts.dfy` | `PassFacts` | line accounting, level and nesting invariants, per-directive effects |
| `captures.dfy` | `CaptureFacts` | soundness and completeness of the recognisers that carry a capture, lifted to `Classify` |
| `decoration.dfy` | `Decoration` | palette and background choice |
| `gate.dfy` | `Gate` | language detection and routing; the outcome for one block |

Each regular expression of the loop is modelled as a deterministic parser:

- a start-anchored form `^\s*[#/]\s*kw` is a prefix match on the
  left-trimmed line;
- an end-anchored form `[#/]\s*kw\s*$` is parsed from the right of the
  right-trimmed line.

`LeadingForm` and `TrailingForm` state the shapes these regexes describe.
The keyword recognisers `AfterLeading` and `BeforeTrailing` are proved
sound and complete against those shapes. The capture recognisers
(`[n]`, `bgcolor=c` and the range text) are proved sound by their
contracts, and the start, auto-start and first-line matchers by
`StartMatchSound`, `AutoStartMatchSound` and `RangesCaptureSound`. They are
proved complete in `CaptureFacts`: every line written in a directive's
form is classified as that directive, with the capture as written. Concrete instances are `StartExample`, `AutoStartExample` and
`RangesExample`.

## Model

| member | source | states |
|---|---|---|
| `Text.TrimStart` | dev/shiki-plugin.js:194 | `^\s*` consumes whitespace only, and all of it: the rest does not start with whitespace |
| `Text.TrimEnd` | dev/shiki-plugin.js:216 | `\s*$` removes a whitespace suffix only, and all of it |
| `Text.LeadingRun` | dev/shiki-plugin.js:194 | the greedy `([\d,-]+)` capture is the longest prefix of allowed characters |
| `Text.TrailingRun` | dev/shiki-plugin.js:284 | the end-anchored `[#\w]+` group is the longest suffix of allowed characters |
| `Text.LeadingRunExact` | dev/shiki-plugin.js:194 | a run of allowed characters followed by a disallowed one (or nothing) is exactly what the greedy capture takes |
| `Text.TrailingRunExact` | dev/shiki-plugin.js:284 | the same at the end of a text, for the end-anchored capture |
| `Text.TrimStartPadded` | dev/shiki-plugin.js:194 | trimming undoes exactly a whitespace padding |
| `Text.TrimStartUnique` | dev/shiki-plugin.js:194 | a text has only one reading as whitespace followed by a non-space start |
| `Text.TrimEndPadded` | dev/shiki-plugin.js:206 | trimming the end undoes exactly a trailing whitespace padding |
| `Text.Split` | dev/shiki-plugin.js:184 | `split('\n')` gives at least one piece, no piece holds the separator, and a text without the separator is one piece |
| `Text.JoinSplit` | dev/shiki-plugin.js:330 | `join` after `split` on the same character restores the text |
| `Text.SplitJoin` | dev/shiki-plugin.js:330 | `split` after `join` gives back separator-free pieces |
| `Text.SplitAround` | dev/shiki-plugin.js:85 | a separator-free head and the separator after it form the first piece of the split |
| `Text.SplitConcat` | dev/shiki-plugin.js:85 | splitting `a + d + b` gives the pieces of `a` followed by those of `b` |
| `Text.SplitConcatStep` | dev/shiki-plugin.js:85 | splitting distributes over a separator still holds with one more character in front |
| `Text.SplitChars` | dev/shiki-plugin.js:88 | every character of a piece comes from the split text |
| `Ranges.ParseInt` | dev/shiki-plugin.js:93 | `parseInt` of a digit string is a number exactly when the string is not empty (`NaN` otherwise) |
| `Ranges.ShowNat` | dev/shiki-plugin.js:93 | every number has a digit string that `parseInt` reads back as that number |
| `Ranges.Span` | dev/shiki-plugin.js:89-91 | the `for` loop yields `start, start+1, …, end`: `end-start+1` numbers, none if `start > end` |
| `Ranges.PartValues` | dev/shiki-plugin.js:86-97 | one comma-separated item contributes only non-negative numbers |
| `Ranges.PartsValues` | dev/shiki-plugin.js:85-98 | the items together contribute only non-negative numbers |
| `Ranges.ParseRanges` | dev/shiki-plugin.js:83-100 | every parsed line number is non-negative |
| `Ranges.PartsValuesAppend` | dev/shiki-plugin.js:85-98 | the items are parsed independently and their numbers concatenated in order |
| `Ranges.CommaConcatenates` | dev/shiki-plugin.js:85-98 | parsing `a,b` gives the numbers of `a` followed by those of `b` |
| `Ranges.OnePart` | dev/shiki-plugin.js:85-87 | text without a comma is parsed as a single item |
| `Ranges.SingleNumber` | dev/shiki-plugin.js:92-96 | a plain number parses to exactly that number |
| `Ranges.HyphenPieces` | dev/shiki-plugin.js:88 | the destructuring `[start, end]` takes the first two `-`-pieces and ignores any more |
| `Ranges.NumberSpan` | dev/shiki-plugin.js:87-91 | `a-b` (and `a-b-…`) parses to the inclusive range from `a` to `b` |
| `Ranges.MissingBoundYieldsNothing` | dev/shiki-plugin.js:88-97 | `-n`, `n-` and the empty text add nothing, because a `NaN` bound stops the loop at once and `NaN` is never pushed |
| `Ranges.Example` | dev/shiki-plugin.js:82-83 | `1,3-4` parses to `[1, 3, 4]` |
| `Directives.AfterLeadingSound` | dev/shiki-plugin.js:194 | what the start-anchored recogniser accepts has the form `^\s*[#/]\s*kw` followed by the text it returns |
| `Directives.AfterLeadingComplete` | dev/shiki-plugin.js:194 | every line of that form is accepted, with that remaining text |
| `Directives.BeforeTrailing` | dev/shiki-plugin.js:206 | an accepted text has the form head, marker, whitespace, keyword at the end; the head is a prefix |
| `Directives.BeforeTrailingComplete` | dev/shiki-plugin.js:206 | every text of that form is accepted, with that head |
| `Directives.EndHead` | dev/shiki-plugin.js:206-216 | `[#/]\s*kw\s*$` matches the right-trimmed line in the trailing form; the text left by the `replace` is a prefix of the line |
| `Directives.LeadingBracket` | dev/shiki-plugin.js:246 | the optional `[(\d+)]` capture is a non-empty digit string, and the text it is found in starts with `[`, the capture and `]` |
| `Directives.BracketTail` | dev/shiki-plugin.js:246 | the end-anchored `[(\d+)]` capture is a non-empty digit string and the text is the rest followed by `[`, the capture and `]`; without a match the rest is the whole text |
| `Directives.LeadingColor` | dev/shiki-plugin.js:284 | the optional `,\s*bgcolor=([#\w]+)` capture is non-empty and made of `#` and word characters, the text starts with `,`, whitespace, `bgcolor=` and the capture, and the capture stops only at a character outside `[#\w]` or at the end |
| `Directives.ColorTail` | dev/shiki-plugin.js:284 | the end-anchored colour capture is non-empty and made of `#` and word characters, and the text is the rest, `,`, whitespace, `bgcolor=` and the capture; without a match the rest is the whole text |
| `Directives.StartMatch` | dev/shiki-plugin.js:246-248 | a start directive's level capture is a digit string, and the kept text is a prefix of the line |
| `Directives.AutoStartMatch` | dev/shiki-plugin.js:284-288 | an auto-start's colour capture is non-empty, and the kept text is a prefix of the line |
| `Directives.RangesCapture` | dev/shiki-plugin.js:194-196 | the `@highlight:` capture is a non-empty text of digits, commas and hyphens, it is found right after `^\s*[#/]\s*@highlight:\s*`, and it stops only at another character or at the end |
| `Directives.Classify` | dev/shiki-plugin.js:193-316 | the first matching test, in loop order, decides the directive. `@highlight:` counts only on line 0, explicit levels are never negative, a colour is never empty, and kept text is a prefix of the line |
| `DirectiveFacts.NoAtIsContent` | dev/shiki-plugin.js:193-326 | a line without `@` is plain content |
| `DirectiveFacts.StandaloneEndIsShadowed` | dev/shiki-plugin.js:206-316 | every standalone `@highlight-end` already matches the trailing test at 206, and only a standalone `@highlight-auto-end` is dropped by a close |
| `DirectiveFacts.EndHeadComplete` | dev/shiki-plugin.js:206-216 | the end-anchored test finds exactly the text before the marker, and the `replace` leaves that text right-trimmed |
| `DirectiveFacts.LeadingText` | dev/shiki-plugin.js:194 | after `^\s*[#/]\s*`, the start-anchored test sees exactly the rest of the line, whatever the keyword |
| `DirectiveFacts.StandaloneEndKeptEmpty` | dev/shiki-plugin.js:194-218 | `# @highlight-end` alone on a line, on any line including the first, is kept as an empty line, not dropped |
| `DirectiveFacts.StandaloneEndHead` | dev/shiki-plugin.js:206-216 | the trailing end test matches `# @highlight-end` with nothing before the marker |
| `DirectiveFacts.StandaloneEndNotRanges` | dev/shiki-plugin.js:194 | `# @highlight-end` is not the first-line directive |
| `DirectiveFacts.DoubleSlashStartKeepsSlash` | dev/shiki-plugin.js:194-280 | an indented `// @highlight-start` line, on any line including the first, opens level 1, and its indentation and first `/` stay in the output |
| `DirectiveFacts.StartWins` | dev/shiki-plugin.js:194-281 | on any line where no earlier test matches (the first-line directive on line 0, both end tests), a start directive decides the line: its declared level (1 without one), dropped in the leading form and kept right-trimmed in the trailing form |
| `DirectiveFacts.AutoStartWins` | dev/shiki-plugin.js:194-308 | on any line where no earlier test matches (the first-line directive, the end tests, the explicit start), an auto-start decides the line: its colour, dropped in the leading form and kept right-trimmed in the trailing form |
| `DirectiveFacts.DoubleSlashNoEnd` | dev/shiki-plugin.js:206-243 | an indented `// @highlight-start` matches none of the end tests |
| `DirectiveFacts.DoubleSlashStartMatch` | dev/shiki-plugin.js:246 | `// @highlight-start` matches only the end-anchored alternative |
| `DirectiveFacts.DoubleSlashNotLeading` | dev/shiki-plugin.js:194-273 | `// @highlight-start` matches no start-anchored test, neither the start nor `@highlight:` |
| `DirectiveFacts.DoubleSlashTrailing` | dev/shiki-plugin.js:278 | the `replace` on `// @highlight-start` leaves the indentation and one `/` |
| `CaptureFacts.NotLeading` | dev/shiki-plugin.js:194 | a line whose first non-space character is not a marker matches no start-anchored test |
| `CaptureFacts.TrailingAt` | dev/shiki-plugin.js:246 | `[#/]\s*kw` at the end of a text is matched, and the head is the text before the marker |
| `CaptureFacts.LeadingBracketComplete` | dev/shiki-plugin.js:246 | `[d]` after a leading start captures `d`, whatever follows |
| `CaptureFacts.BracketTailComplete` | dev/shiki-plugin.js:246 | `[d]` at the end captures `d`, and the rest is the text before it |
| `CaptureFacts.LeadingColorComplete` | dev/shiki-plugin.js:284 | `,\s*bgcolor=c` after a leading auto-start captures the whole colour `c` |
| `CaptureFacts.ColorTailComplete` | dev/shiki-plugin.js:284 | `,\s*bgcolor=c` at the end captures `c`, and the rest is the text before it |
| `CaptureFacts.BracketTailJoin` | dev/shiki-plugin.js:246 | the end-anchored bracket group splits a text into the rest and the group as written, which together give back the text |
| `CaptureFacts.ColorTailJoin` | dev/shiki-plugin.js:284 | the end-anchored colour group splits a text into the rest and `,`, whitespace, `bgcolor=` and the colour, which together give back the text |
| `CaptureFacts.StartMatchSound` | dev/shiki-plugin.js:246-248 | whenever the start regex matches, the line has the form it describes: a leading `[#/]\s*@highlight-start` whose rest yields the capture, or a right-trimmed line that is the head, marker, whitespace, keyword and `[d]` |
| `CaptureFacts.AutoStartMatchSound` | dev/shiki-plugin.js:284-288 | whenever the auto-start regex matches, the line has the form it describes: a leading auto-start whose rest yields the colour, or a right-trimmed line that is the head, marker, whitespace, keyword and the colour group |
| `CaptureFacts.RangesCaptureSound` | dev/shiki-plugin.js:194-196 | whenever the first-line directive matches, the line is `^\s*[#/]\s*@highlight:` followed by whitespace and the capture, and the capture is not followed by another digit, comma or hyphen |
| `CaptureFacts.StartLeadingComplete` | dev/shiki-plugin.js:246 | every leading `[#/]\s*@highlight-start[d]` is matched by the start-anchored alternative, capturing `d` |
| `CaptureFacts.StartBracket` | dev/shiki-plugin.js:246 | the optional group of a leading start is captured as written |
| `CaptureFacts.TrailingBracket` | dev/shiki-plugin.js:246 | the optional group of a trailing start, before trailing whitespace, is captured as written |
| `CaptureFacts.StartTrailingComplete` | dev/shiki-plugin.js:246 | every line ending in `[#/]\s*@highlight-start[d]\s*` that is not itself a leading start is matched by the end-anchored alternative, capturing `d` and the text before the marker, whatever that text is |
| `CaptureFacts.NoBracketAfterKeyword` | dev/shiki-plugin.js:246 | a text ending in the start keyword has no `[n]` group |
| `CaptureFacts.AutoStartLeadingComplete` | dev/shiki-plugin.js:284 | every leading auto-start with an optional colour group is matched by the start-anchored alternative, capturing the colour |
| `CaptureFacts.NoColorAfterKeyword` | dev/shiki-plugin.js:284 | a text ending in the auto-start keyword has no colour group |
| `CaptureFacts.TrailingColor` | dev/shiki-plugin.js:284 | the optional colour group of a trailing auto-start, before trailing whitespace, is captured as written |
| `CaptureFacts.TrailingColorGroup` | dev/shiki-plugin.js:284 | a colour group before trailing whitespace is captured as written, and the rest is the text before it |
| `CaptureFacts.AutoStartTrailingComplete` | dev/shiki-plugin.js:284 | every line ending in an auto-start with an optional colour group that is not itself a leading auto-start is matched by the end-anchored alternative, capturing the colour and the text before the marker |
| `CaptureFacts.RangesCaptureComplete` | dev/shiki-plugin.js:194 | `[#/]\s*@highlight:\s*s` captures the whole run `s` of digits, commas and hyphens, whatever follows |
| `CaptureFacts.RangesRun` | dev/shiki-plugin.js:194 | after the padding, the range capture stops exactly at the first other character |
| `CaptureFacts.EndsUnlike` | dev/shiki-plugin.js:206-230 | a line ending (before whitespace) in a character other than the keyword's last matches no end test for that keyword |
| `CaptureFacts.ColorEndUnlike` | dev/shiki-plugin.js:206-246 | a text ending in `=c` does not end in any keyword holding no `=` |
| `CaptureFacts.LeadingStartNoEarlier` | dev/shiki-plugin.js:194-243 | a leading start is neither the first-line directive nor an end directive |
| `CaptureFacts.ClassifyLeadingStart` | dev/shiki-plugin.js:194-271 | every leading `[#/]\s*@highlight-start[d]\s*`, on any line, opens the declared level `d` (1 without a group) and is dropped |
| `CaptureFacts.TrailingStartNoEarlier` | dev/shiki-plugin.js:206-243 | a line ending in a start directive matches none of the end tests |
| `CaptureFacts.ClassifyTrailingStart` | dev/shiki-plugin.js:194-281 | every line ending in `[#/]\s*@highlight-start[d]\s*` that is not a leading start (nor, on line 0, the first-line directive) opens the declared level and keeps the text before the marker, right-trimmed |
| `CaptureFacts.ColorGroupIsNoOther` | dev/shiki-plugin.js:206-246 | a line ending in a colour group is no end directive and no trailing start |
| `CaptureFacts.BareAutoStartIsNoOther` | dev/shiki-plugin.js:206-246 | a line ending in the auto-start keyword is no end directive and no trailing start |
| `CaptureFacts.TrailingAutoStartIsNoOther` | dev/shiki-plugin.js:206-246 | an auto-start at the end of a line, with or without a colour, is no end directive and no trailing start |
| `CaptureFacts.LeadingAutoStartNoEarlier` | dev/shiki-plugin.js:194-246 | a leading auto-start is not the first-line directive, an end directive or an explicit start |
| `CaptureFacts.ClassifyLeadingAutoStart` | dev/shiki-plugin.js:194-308 | every leading auto-start, on any line, opens an auto level with the colour as written and is dropped |
| `CaptureFacts.TrailingAutoStartNoEarlier` | dev/shiki-plugin.js:206-246 | a line ending in an auto-start matches none of the end tests and no end-anchored start |
| `CaptureFacts.ClassifyTrailingAutoStart` | dev/shiki-plugin.js:194-308 | every line ending in an auto-start that is neither a leading start nor a leading auto-start (nor, on line 0, the first-line directive) opens an auto level with its colour and keeps the text before the marker, right-trimmed |
| `CaptureFacts.AutoEndNotEnd` | dev/shiki-plugin.js:206 | a line ending in `@highlight-auto-end` does not match the end test of line 206 |
| `CaptureFacts.ClassifyStandaloneAutoEnd` | dev/shiki-plugin.js:194-227 | every line `^\s*[#/]\s*@highlight-auto-end\s*$`, on any line, closes and is dropped |
| `CaptureFacts.ClassifyTrailingAutoEnd` | dev/shiki-plugin.js:194-243 | every line ending in `[#/]\s*@highlight-auto-end\s*` with text before the marker, unless it is the first-line directive, closes and keeps that text right-trimmed |
| `CaptureFacts.ClassifyTrailingEnd` | dev/shiki-plugin.js:194-218 | every line ending in `[#/]\s*@highlight-end\s*`, whatever comes before the marker, unless it is the first-line directive, closes and keeps that text right-trimmed |
| `CaptureFacts.ClassifyFirstLineRanges` | dev/shiki-plugin.js:194-196 | every first line of the form `[#/]\s*@highlight:\s*s`, with `s` a range text, lists the numbers `s` parses to |
| `CaptureFacts.StartExample` | dev/shiki-plugin.js:246-271 | `# @highlight-start[3]` opens level 3 and is dropped |
| `CaptureFacts.AutoStartExample` | dev/shiki-plugin.js:284-305 | `x # @highlight-auto-start,bgcolor=#ff0000` opens an auto level with colour `#ff0000` and keeps `x` |
| `CaptureFacts.CodeFirst` | dev/shiki-plugin.js:194-284 | a line that starts with code (neither whitespace nor a marker) matches none of the start-anchored tests: not the ranges, start or auto-start forms |
| `CaptureFacts.RangesExample` | dev/shiki-plugin.js:194-196 | `# @highlight: 1,3-4` on the first line lists lines 1, 3 and 4 |
| `Pass.MarkAll` | dev/shiki-plugin.js:197-199 | every listed key gets the value, and every other key keeps its old value |
| `Pass.Apply` | dev/shiki-plugin.js:193-326 | each line is dropped exactly when its directive drops it, and otherwise appended once. Only the appended line's position `i - lineOffset + 1` can gain a mark. The stack changes by at most one push or pop |
| `Pass.Classified` | dev/shiki-plugin.js:190-191 | one directive per line |
| `Pass.Run` | dev/shiki-plugin.js:190-327 | after `n` lines, output length plus `lineOffset` is `n` |
| `PassFacts.OutputLength` | dev/shiki-plugin.js:201-326 | the output has one line per input line minus the dropped directive lines, and `lineOffset` counts exactly those |
| `PassFacts.MarkKeyIsOutputPosition` | dev/shiki-plugin.js:319-322 | the mark written for line `i` goes to the number of the output line it became |
| `PassFacts.ContentIsIdentity` | dev/shiki-plugin.js:318-326 | without directives, the output is the input, with no marks, no open span and no offset |
| `PassFacts.LevelsStayPositive` | dev/shiki-plugin.js:252-256 | every stack entry and every mark has level at least 1 |
| `PassFacts.ApplyKeepsConsecutive` | dev/shiki-plugin.js:259-271 | a step without a level skew keeps the stack levels 1, 2, …, depth |
| `PassFacts.ExpectedLevelsNestConsecutively` | dev/shiki-plugin.js:258-271 | if no start declares a level other than depth+1, the stack is always 1, 2, …, depth |
| `PassFacts.AutoStartsCountUp` | dev/shiki-plugin.js:286-297 | `n` auto-starts build the stack with levels 1..n |
| `PassFacts.FirstLineRanges` | dev/shiki-plugin.js:194-202 | the first-line directive is dropped, leaves the stack empty, and gives level 1 to exactly the listed keys |
| `PassFacts.ExplicitStart` | dev/shiki-plugin.js:246-281 | a level below 1 keeps the line verbatim and pushes nothing. Otherwise the declared level is pushed, and the line is dropped (leading form) or kept without the directive (trailing form) |
| `PassFacts.AutoStart` | dev/shiki-plugin.js:284-308 | an auto-start pushes level depth+1 with its colour, and marks nothing |
| `PassFacts.Close` | dev/shiki-plugin.js:206-243 | a close pops. A trailing close keeps the cleaned line and marks it with the span being closed. A standalone auto-end is dropped and marks nothing |
| `PassFacts.ContentLine` | dev/shiki-plugin.js:318-326 | a content line is appended as written and, when a span is open, its output position is marked with the innermost span; the stack and the offset do not change |
| `PassFacts.OpenLineClose` | dev/shiki-plugin.js:222-326 | start, one line, end: only that line stays, marked with a level of depth+1 and the given colour. The stack is restored |
| `PassFacts.KeysAddressOutput` | dev/shiki-plugin.js:210-322 | every key of the map is an output line number, or a number listed by the first-line directive |
| `PassFacts.KeptLinesUnbroken` | dev/shiki-plugin.js:216-305 | kept lines are prefixes of input lines, so they hold no line break |
| `PassFacts.ClassifiedFacts` | dev/shiki-plugin.js:193-316 | only line 0 can be a range directive, and every kept text is a prefix of its line |
| `PassFacts.ClassifiedPlain` | dev/shiki-plugin.js:193-326 | lines without `@` are all plain content |
| `PassFacts.NoDirectiveText` | dev/shiki-plugin.js:183-330 | code without `@` reaches the highlighter unchanged, with no highlighted line |
| `PassFacts.FilteredTextLines` | dev/shiki-plugin.js:330 | the joined text splits back into exactly the kept lines |
| `Decoration.JsRem` | dev/shiki-plugin.js:126 | JavaScript `%` keeps the sign of the dividend, its magnitude stays below the divisor, and on a non-negative dividend it is the mathematical remainder |
| `Decoration.JsRemNegate` | dev/shiki-plugin.js:126 | negating the dividend negates the remainder, as truncation toward zero does |
| `Decoration.PaletteCycle` | dev/shiki-plugin.js:143 | for levels of at least 1, the class index lies in 1..4, equals the mathematical remainder plus 1, and repeats every four levels |
| `Decoration.PaletteBelowOne` | dev/shiki-plugin.js:126 | below level 1 the formula leaves the palette (level 0 gives class 0), because JavaScript `%` truncates toward zero. The pass never records such a level (`LevelsStayPositive`), so this only shows why `PaletteCycle` needs its bound |
| `Decoration.MarkDeco` | dev/shiki-plugin.js:124-145 | every mark decorates its line. A span with a non-empty `bgcolor` gets that background, and every other mark gets the palette class of its level |
| `Decoration.Decorate` | dev/shiki-plugin.js:121-123 | line `j` is decorated exactly when key `j + 1` is in the map |
| `Decoration.OutOfRangeIgnored` | dev/shiki-plugin.js:122-123 | adding or removing a key outside 1..count changes no line |
| `Decoration.PassClassesInPalette` | dev/shiki-plugin.js:143-144 | every class that follows from the pass's map is one of `highlight-level-1` … `highlight-level-4` |
| `Gate.DeclaredLanguage` | dev/shiki-plugin.js:168-169 | the language is the suffix of the first `language-` class, or `text` when there is none |
| `Gate.RouteFor` | dev/shiki-plugin.js:172-342 | a highlighted language is always one of the configured languages |
| `Gate.RouteIsAllowList` | dev/shiki-plugin.js:333-342 | a block is highlighted exactly when its normalised language is configured, so the `nohighlight` and `text` tests never change the outcome |
| `Gate.HighlightCodeBlock` | dev/shiki-plugin.js:168-375 | a block is rendered exactly when its normalised language is configured, and then in that language |
| `Gate.PlainBlockRendersVerbatim` | dev/shiki-plugin.js:183-375 | a supported block without `@` is rendered from its code unchanged, with no highlight |
| `Gate.SkippedBlocks` | dev/shiki-plugin.js:172-342 | `nohighlight`, `text` and unlisted languages leave the block unchanged, whatever its code says |

## Behaviour worth knowing

- **Explicit levels.** `@highlight-start[n]` pushes the declared `n`
  even when it is not depth + 1 (lines 248-271); the mismatch is only
  logged. `ExpectedLevelsNestConsecutively` therefore holds only when no
  start skews its level.
- **Standalone end.** A standalone `@highlight-end` is not dropped. The
  trailing test at line 206 matches it first, and the `replace` at line
  216 removes the directive together with all whitespace before it, so
  `    # @highlight-end` becomes the empty line `""`. That line is marked
  with the span it closes when one is open (see `StandaloneEndKeptEmpty`).
  Only a standalone `@highlight-auto-end` is dropped.
- **The marker class.** `[#\/\/]` is one character, `#` or `/`. On a
  `// @highlight-start` line the second `/` is taken as the marker, so the
  line is kept as its indentation plus `/` rather than dropped (see
  `DoubleSlashStartKeepsSlash`). For the same reason `// @highlight: …` is
  not recognised.
- **`@highlight:` position.** It is a prefix match on line 0, not a
  standalone-line test: trailing text after the ranges is ignored, and the
  whole line is dropped. Its keys are the literal numbers, with no offset
  adjustment.
- **No diagnostics.** The code only logs errors. An unclosed span is
  simply left open.
- **Popping an empty stack** does nothing.
- **Every line dropped.** When every line of a block is a dropped
  directive, the text handed to the highlighter is `""`, and `""` still
  splits into one (empty) line. So `FilteredTextLines` asks for at least
  one kept line: with none, the split gives `[""]`, not `[]`.

## Left out

- Loading Shiki (`loadShiki`), themes (`getCurrentTheme`,
  `observeThemeChanges`), the transformers and `codeToHtml`: these call
  into code outside this file. `HighlightCodeBlock` returns what would be
  handed to `codeToHtml`.
- The DOM: finding code blocks (`highlightAllCodeBlocks`), replacing the
  element, the copy button and the clipboard, and initialisation. They are
  effects with no logic to prove. The number of `.line` spans Shiki emits
  is the parameter `count` of `Decorate`.
- Caching in `pre.dataset.originalCode` / `originalLang`: the code of a
  block is a parameter.
- All `console` output.
- The array branch of `addHighlightToLines` (lines 111-117):
  `highlightCodeBlock` always passes an object.
- Ranges.ParseRanges: requires text of digits, commas and hyphens only,
  which is what the `[\d,-]+` capture, its only caller, always gives. So
  `trim` and `parseInt` on other strings are not modelled.
- Ranges.ParseInt: reads digit strings exactly; JavaScript numbers lose
  precision above 2^53, and the model does not.
- Decoration.Decorate: keys are integers, not the decimal strings of a
  JavaScript object. The order of `Object.entries` is not modelled, because
  each key decorates a different line.
- Text.TrimStart: whitespace is the ECMAScript `\s` set, compared code
  point by code point. Dafny's `char` has no surrogate pairs, and
  astral-plane characters are not modelled as two UTF-16 units.
