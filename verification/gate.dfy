/** The language gate of `highlightCodeBlock` (dev/shiki-plugin.js:168-180
    and 333-342) and what becomes of one code block. */
module Gate {
  import opened Text
  import opened Pass
  import PassFacts

  /** `SHIKI_CONFIG.languages` (dev/shiki-plugin.js:8). */
  const Languages: seq<string> := ["julia", "javascript", "python", "bash", "json", "yaml", "toml"]

  const ClassPrefix := "language-"

  /** The first class that starts with `language-`, without that prefix;
      `text` when there is none. */
  function DeclaredLanguage(classes: seq<string>): (lang: string)
    ensures (forall k | 0 <= k < |classes| :: !(ClassPrefix <= classes[k])) ==> lang == "text"
    ensures (exists k | 0 <= k < |classes| :: ClassPrefix <= classes[k]) ==>
      exists k | 0 <= k < |classes| :: classes[k] == ClassPrefix + lang
        && forall j | 0 <= j < k :: !(ClassPrefix <= classes[j])
  {
    if |classes| == 0 then "text"
    else if ClassPrefix <= classes[0] then
      assert classes[0] == ClassPrefix + classes[0][|ClassPrefix|..];
      classes[0][|ClassPrefix|..]
    else
      var lang := DeclaredLanguage(classes[1..]);
      assert forall k | 1 <= k < |classes| :: classes[k] == classes[1..][k - 1];
      lang
  }

  /** `julia-repl` is highlighted as `julia`; no other name is changed. */
  function Normalized(lang: string): string {
    if lang == "julia-repl" then "julia" else lang
  }

  datatype Route = Untouched | Highlight(lang: string)

  /** `nohighlight` and `nohighlight-*` blocks are skipped before the
      directive pass, `text` and unsupported languages after it; either way
      the block is left as it was. */
  function RouteFor(lang: string): (r: Route)
    ensures r.Highlight? ==> r.lang in Languages
  {
    if "nohighlight-" <= lang || lang == "nohighlight" then Untouched
    else
      var l := Normalized(lang);
      if l == "text" then Untouched
      else if l !in Languages then Untouched
      else Highlight(l)
  }

  /** The two skip tests are subsumed by the allow-list: a block is
      highlighted exactly when its normalised language is allowed. */
  lemma RouteIsAllowList(lang: string)
    ensures RouteFor(lang) == if Normalized(lang) in Languages then Highlight(Normalized(lang)) else Untouched
  {
  }

  /** What becomes of one code block: left alone, or handed to the
      highlighter as `code` in language `lang` with the highlight map. */
  datatype Outcome = Unchanged | Rendered(lang: string, code: string, marks: map<int, Mark>)

  function HighlightCodeBlock(classes: seq<string>, code: string): (r: Outcome)
    ensures r.Rendered? ==> r.lang in Languages && r.lang == Normalized(DeclaredLanguage(classes))
    ensures r.Rendered? <==> Normalized(DeclaredLanguage(classes)) in Languages
  {
    RouteIsAllowList(DeclaredLanguage(classes));
    match RouteFor(DeclaredLanguage(classes))
    case Untouched => Unchanged
    case Highlight(lang) =>
      var (text, marks) := FilterCode(code);
      Rendered(lang, text, marks)
  }

  /** A block of a supported language without any `@` reaches the
      highlighter exactly as written, with no highlighted line. */
  lemma PlainBlockRendersVerbatim(classes: seq<string>, code: string)
    requires '@' !in code
    requires Normalized(DeclaredLanguage(classes)) in Languages
    ensures HighlightCodeBlock(classes, code) == Rendered(Normalized(DeclaredLanguage(classes)), code, map[])
  {
    PassFacts.NoDirectiveText(code);
  }

  /** `nohighlight`, `text` and unlisted languages leave the block alone,
      whatever its code says. */
  lemma SkippedBlocks(classes: seq<string>, code: string)
    ensures var lang := DeclaredLanguage(classes);
      ("nohighlight-" <= lang || lang == "nohighlight" || lang == "text" || Normalized(lang) !in Languages)
      ==> HighlightCodeBlock(classes, code) == Unchanged
  {
  }
}
