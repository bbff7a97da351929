/** Character classes of JavaScript regular expressions and the few string
    operations the highlight pass relies on: trimming, runs of a character
    class, and `String.prototype.split` / `Array.prototype.join` on one
    separator character. */
module Text {

  /** `\s`: the ECMAScript WhiteSpace and LineTerminator code points. */
  predicate IsSpace(c: char) {
    c == ' ' || c == '\t' || c == '\n' || c == '\r' || c == '\U{B}' || c == '\U{C}'
    || c == '\U{A0}' || c == '\U{1680}' || ('\U{2000}' <= c <= '\U{200A}')
    || c == '\U{2028}' || c == '\U{2029}' || c == '\U{202F}' || c == '\U{205F}'
    || c == '\U{3000}' || c == '\U{FEFF}'
  }

  /** `\d` */
  predicate IsDigit(c: char) {
    '0' <= c <= '9'
  }

  /** The character class `[#\/\/]` of the directive regexes: it lists `/`
      twice, so it matches ONE character, `#` or `/`. */
  predicate IsMarker(c: char) {
    c == '#' || c == '/'
  }

  predicate AllSpace(s: string) {
    forall k | 0 <= k < |s| :: IsSpace(s[k])
  }

  predicate AllDigits(s: string) {
    forall k | 0 <= k < |s| :: IsDigit(s[k])
  }

  /** `s` is whitespace followed by `x`. */
  predicate SpacesThen(s: string, x: string) {
    |x| <= |s| && AllSpace(s[..|s| - |x|]) && s[|s| - |x|..] == x
  }

  predicate HasSuffix(s: string, suffix: string) {
    |suffix| <= |s| && s[|s| - |suffix|..] == suffix
  }

  /** Two prefixes in a row make one. */
  lemma PrefixThen(a: string, b: string, x: string)
    requires a <= x && b <= x[|a|..]
    ensures a + b <= x
  {
    assert x[..|a| + |b|] == x[..|a|] + x[|a|..][..|b|];
  }

  /** `s` with its leading `\s*` removed. */
  function TrimStart(s: string): (r: string)
    ensures SpacesThen(s, r)
    ensures r == [] || !IsSpace(r[0])
  {
    if |s| > 0 && IsSpace(s[0]) then
      var r := TrimStart(s[1..]);
      SpacesThenCons(s, r);
      r
    else s
  }

  /** One more whitespace character in front keeps the shape. */
  lemma SpacesThenCons(s: string, x: string)
    requires |s| > 0 && IsSpace(s[0]) && SpacesThen(s[1..], x)
    ensures SpacesThen(s, x)
  {
    var n := |s| - |x|;
    assert s[1..][..n - 1] == s[1..n];
    assert s[1..][n - 1..] == s[n..];
    assert forall k | 1 <= k < n :: s[..n][k] == s[1..][..n - 1][k - 1];
  }

  /** `s` with its trailing `\s*` removed. */
  function TrimEnd(s: string): (r: string)
    ensures r <= s
    ensures AllSpace(s[|r|..])
    ensures r == [] || !IsSpace(r[|r| - 1])
  {
    if |s| > 0 && IsSpace(s[|s| - 1]) then TrimEnd(s[..|s| - 1]) else s
  }

  /** The longest prefix of `s` whose characters all satisfy `p`: what a
      greedy `[...]*` at that point consumes. */
  function LeadingRun(s: string, p: char -> bool): (r: string)
    ensures r <= s
    ensures forall k | 0 <= k < |r| :: p(r[k])
    ensures |r| == |s| || !p(s[|r|])
  {
    if |s| > 0 && p(s[0]) then [s[0]] + LeadingRun(s[1..], p) else []
  }

  /** The longest suffix of `s` whose characters all satisfy `p`. */
  function TrailingRun(s: string, p: char -> bool): (r: string)
    ensures HasSuffix(s, r)
    ensures forall k | 0 <= k < |r| :: p(r[k])
    ensures |r| == |s| || !p(s[|s| - |r| - 1])
  {
    if |s| > 0 && p(s[|s| - 1]) then
      var t := s[..|s| - 1];
      var r := TrailingRun(t, p);
      var r' := r + [s[|s| - 1]];
      TrailingRunSnoc(s, t, r, r', p);
      r'
    else []
  }

  /** One more allowed character at the end extends the run. */
  lemma TrailingRunSnoc(s: string, t: string, r: string, r': string, p: char -> bool)
    requires |s| > 0 && p(s[|s| - 1]) && t == s[..|s| - 1] && r' == r + [s[|s| - 1]]
    requires HasSuffix(t, r)
    requires forall k | 0 <= k < |r| :: p(r[k])
    requires |r| == |t| || !p(t[|t| - |r| - 1])
    ensures HasSuffix(s, r')
    ensures forall k | 0 <= k < |r'| :: p(r'[k])
    ensures |r'| == |s| || !p(s[|s| - |r'| - 1])
  {
    var n := |s| - 1;
    assert s[n - |r|..] == t[n - |r|..] + [s[n]];
    assert forall k | 0 <= k < |r'| :: r'[k] == if k < |r| then r[k] else s[n];
  }

  /** A greedy run stops exactly where the allowed characters end. */
  lemma {:induction false} LeadingRunExact(d: string, x: string, p: char -> bool)
    requires forall k | 0 <= k < |d| :: p(d[k])
    requires x == [] || !p(x[0])
    ensures LeadingRun(d + x, p) == d
  {
    if |d| > 0 {
      assert (d + x)[1..] == d[1..] + x;
      LeadingRunExact(d[1..], x, p);
      assert [d[0]] + d[1..] == d;
    } else {
      assert d + x == x;
    }
  }

  lemma {:induction false} TrailingRunExact(x: string, d: string, p: char -> bool)
    requires forall k | 0 <= k < |d| :: p(d[k])
    requires x == [] || !p(x[|x| - 1])
    ensures TrailingRun(x + d, p) == d
  {
    if |d| > 0 {
      assert (x + d)[..|x + d| - 1] == x + d[..|d| - 1];
      TrailingRunExact(x, d[..|d| - 1], p);
      assert d[..|d| - 1] + [d[|d| - 1]] == d;
    } else {
      assert x + d == x;
    }
  }

  /** Trimming is exactly "drop the surrounding whitespace": the two trims
      undo a whitespace padding and nothing else. */
  lemma {:induction false} TrimStartPadded(w: string, x: string)
    requires AllSpace(w)
    requires x == [] || !IsSpace(x[0])
    ensures TrimStart(w + x) == x
  {
    if |w| > 0 {
      assert (w + x)[1..] == w[1..] + x;
      TrimStartPadded(w[1..], x);
    } else {
      assert w + x == x;
    }
  }

  /** The one way to read a text as whitespace followed by a text that
      does not start with whitespace. */
  lemma TrimStartUnique(s: string, x: string)
    requires SpacesThen(s, x)
    requires x == [] || !IsSpace(x[0])
    ensures TrimStart(s) == x
  {
    assert s == s[..|s| - |x|] + x;
    TrimStartPadded(s[..|s| - |x|], x);
  }

  lemma {:induction false} TrimEndPadded(x: string, w: string)
    requires AllSpace(w)
    requires x == [] || !IsSpace(x[|x| - 1])
    ensures TrimEnd(x + w) == x
  {
    if |w| > 0 {
      assert (x + w)[..|x + w| - 1] == x + w[..|w| - 1];
      TrimEndPadded(x, w[..|w| - 1]);
    } else {
      assert x + w == x;
    }
  }

  /** `s.split(d)`: the pieces between occurrences of `d`; never empty. */
  function Split(s: string, d: char): (r: seq<string>)
    ensures |r| >= 1
    ensures forall k | 0 <= k < |r| :: d !in r[k]
    ensures d !in s ==> r == [s]
    ensures d in s ==> |r| >= 2
  {
    if |s| == 0 then [""]
    else if s[0] == d then [""] + Split(s[1..], d)
    else
      var rest := Split(s[1..], d);
      assert [s[0]] + s[1..] == s;
      [[s[0]] + rest[0]] + rest[1..]
  }

  /** `parts.join(d)` */
  function Join(parts: seq<string>, d: char): string {
    if |parts| == 0 then ""
    else if |parts| == 1 then parts[0]
    else parts[0] + [d] + Join(parts[1..], d)
  }

  /** Joining the pieces of a split restores the text. */
  lemma {:induction false} JoinSplit(s: string, d: char)
    ensures Join(Split(s, d), d) == s
  {
    if |s| == 0 {
    } else if s[0] == d {
      JoinSplit(s[1..], d);
      var rest := Split(s[1..], d);
      assert ([""] + rest)[1..] == rest;
      assert [d] + s[1..] == s;
    } else {
      JoinSplit(s[1..], d);
      var rest := Split(s[1..], d);
      var r := [[s[0]] + rest[0]] + rest[1..];
      if |rest| == 1 {
        assert r == [[s[0]] + rest[0]];
        assert [s[0]] + s[1..] == s;
      } else {
        assert r[1..] == rest[1..];
        assert Join(rest, d) == rest[0] + [d] + Join(rest[1..], d);
        assert [s[0]] + s[1..] == s;
      }
    }
  }

  /** Splitting a join of separator-free pieces gives the pieces back. */
  lemma {:induction false} SplitJoin(parts: seq<string>, d: char)
    requires |parts| >= 1
    requires forall k | 0 <= k < |parts| :: d !in parts[k]
    ensures Split(Join(parts, d), d) == parts
  {
    if |parts| == 1 {
    } else {
      SplitJoin(parts[1..], d);
      SplitAround(parts[0], Join(parts[1..], d), d);
      assert [parts[0]] + parts[1..] == parts;
    }
  }

  /** Splitting is compatible with concatenation around one separator. */
  lemma {:induction false} SplitAround(a: string, b: string, d: char)
    requires d !in a
    ensures Split(a + [d] + b, d) == [a] + Split(b, d)
  {
    if |a| == 0 {
      assert a + [d] + b == [d] + b;
      assert ([d] + b)[1..] == b;
    } else {
      assert (a + [d] + b)[1..] == a[1..] + [d] + b;
      SplitAround(a[1..], b, d);
      assert [a[0]] + a[1..] == a;
    }
  }

  /** The pieces of `a + [d] + b` are the pieces of `a` followed by those
      of `b`, for any `a`. */
  lemma {:induction false} SplitConcat(a: string, b: string, d: char)
    ensures Split(a + [d] + b, d) == Split(a, d) + Split(b, d)
  {
    if |a| == 0 {
      assert a + [d] + b == [d] + b;
      SplitHead(d, b, d);
    } else {
      SplitConcat(a[1..], b, d);
      SplitConcatStep(a[0], a[1..], b, d);
      assert [a[0]] + a[1..] == a;
    }
  }

  /** The inductive step of `SplitConcat`: one more character in front. */
  lemma SplitConcatStep(c: char, a: string, b: string, d: char)
    requires Split(a + [d] + b, d) == Split(a, d) + Split(b, d)
    ensures Split([c] + a + [d] + b, d) == Split([c] + a, d) + Split(b, d)
  {
    var t := a + [d] + b;
    assert [c] + a + [d] + b == [c] + t;
    SplitHead(c, t, d);
    SplitHead(c, a, d);
    if c == d {
      PrependPiece("", Split(a, d), Split(b, d));
    } else {
      ExtendFirstPiece([c], Split(a, d), Split(b, d));
    }
  }

  /** A piece put in front of two lists of pieces. */
  lemma PrependPiece<T>(h: T, ra: seq<T>, rb: seq<T>)
    ensures [h] + (ra + rb) == [h] + ra + rb
  {
  }

  /** Text put in front of the first piece of two lists of pieces. */
  lemma ExtendFirstPiece(c: string, ra: seq<string>, rb: seq<string>)
    requires |ra| >= 1
    ensures [c + (ra + rb)[0]] + (ra + rb)[1..] == [c + ra[0]] + ra[1..] + rb
  {
    assert (ra + rb)[0] == ra[0];
    assert (ra + rb)[1..] == ra[1..] + rb;
  }

  /** One step of the split: a separator starts a new piece, any other
      character joins the first piece. */
  lemma SplitHead(c: char, t: string, d: char)
    ensures c == d ==> Split([c] + t, d) == [""] + Split(t, d)
    ensures c != d ==> Split([c] + t, d) == [[c] + Split(t, d)[0]] + Split(t, d)[1..]
  {
    assert ([c] + t)[0] == c;
    assert ([c] + t)[1..] == t;
  }

  /** Chars of a piece of a split lie in the split text. */
  lemma SplitChars(s: string, d: char, k: int, c: char)
    requires 0 <= k < |Split(s, d)| && c in Split(s, d)[k]
    ensures c in s
    decreases |s|
  {
    if |s| > 0 {
      var rest := Split(s[1..], d);
      if s[0] == d {
        if k > 0 {
          SplitChars(s[1..], d, k - 1, c);
        }
      } else if k == 0 {
        if c != s[0] {
          assert c in rest[0];
          SplitChars(s[1..], d, 0, c);
        }
      } else {
        SplitChars(s[1..], d, k, c);
      }
    }
  }
}
