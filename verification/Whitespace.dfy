// Whitespace runs as the regular expressions `^\s*` and `\s*$` find them.
module Whitespace {

  /** JavaScript's `\s`: the ECMAScript WhiteSpace and LineTerminator code points. */
  predicate IsWhitespace(c: char)
  {
    || c == '\t' || c == '\n' || c == '\U{000B}' || c == '\U{000C}' || c == '\r'
    || c == ' ' || c == '\U{00A0}' || c == '\U{1680}'
    || ('\U{2000}' <= c <= '\U{200A}')
    || c == '\U{2028}' || c == '\U{2029}' || c == '\U{202F}' || c == '\U{205F}'
    || c == '\U{3000}' || c == '\U{FEFF}'
  }

  predicate AllWhitespace(s: string)
  {
    forall i :: 0 <= i < |s| ==> IsWhitespace(s[i])
  }

  /** `r` is the longest run of whitespace that `s` starts with. */
  predicate IsLongestWhitespacePrefix(s: string, r: string)
  {
    && r <= s
    && AllWhitespace(r)
    && (|r| < |s| ==> !IsWhitespace(s[|r|]))
  }

  /** `r` is the longest run of whitespace that `s` ends with. */
  predicate IsLongestWhitespaceSuffix(s: string, r: string)
  {
    && |r| <= |s|
    && r == s[|s| - |r|..]
    && AllWhitespace(r)
    && (|r| < |s| ==> !IsWhitespace(s[|s| - |r| - 1]))
  }

  // What `s.match(/^\s*/)` returns: the pattern always matches, possibly emptily.
  function LeadingWhitespace(s: string): (r: string)
    ensures IsLongestWhitespacePrefix(s, r)
  {
    if |s| == 0 || !IsWhitespace(s[0]) then []
    else [s[0]] + LeadingWhitespace(s[1..])
  }

  // What `s.match(/\s*$/)` returns: the pattern always matches, possibly emptily.
  function TrailingWhitespace(s: string): (r: string)
    ensures IsLongestWhitespaceSuffix(s, r)
  {
    if |s| == 0 || !IsWhitespace(s[|s| - 1]) then []
    else TrailingWhitespace(s[..|s| - 1]) + [s[|s| - 1]]
  }

  /** The longest whitespace prefix is unique, so `LeadingWhitespace` is the only answer. */
  lemma LongestPrefixUnique(s: string, r: string)
    requires IsLongestWhitespacePrefix(s, r)
    ensures r == LeadingWhitespace(s)
  {
  }

  /** The longest whitespace suffix is unique, so `TrailingWhitespace` is the only answer. */
  lemma LongestSuffixUnique(s: string, r: string)
    requires IsLongestWhitespaceSuffix(s, r)
    ensures r == TrailingWhitespace(s)
  {
  }

  /**
   * A single left-to-right scan that remembers where the last non-whitespace
   * character ended. It finds the same run as `TrailingWhitespace`, and that
   * run starts at the leftmost index from which the rest of `s` is all
   * whitespace: the match a regular-expression engine reports for `\s*$`.
   */
  method MatchTrailingWhitespace(s: string) returns (r: string)
    ensures r == TrailingWhitespace(s)
    ensures forall i :: 0 <= i <= |s| && AllWhitespace(s[i..]) ==> |s| - |r| <= i
  {
    // `k` is the last non-whitespace index seen so far, plus one.
    var k := 0;
    var i := 0;
    while i < |s|
      invariant 0 <= k <= i <= |s|
      invariant forall j :: k <= j < i ==> IsWhitespace(s[j])
      invariant k > 0 ==> !IsWhitespace(s[k - 1])
    {
      if !IsWhitespace(s[i]) {
        k := i + 1;
      }
      i := i + 1;
    }
    r := s[k..];
    LongestSuffixUnique(s, r);
    forall j | 0 <= j <= |s| && AllWhitespace(s[j..])
      ensures k <= j
    {
    }
  }

  /** A selection made only of whitespace is its own leading and trailing run. */
  lemma AllWhitespaceRuns(s: string)
    requires AllWhitespace(s)
    ensures LeadingWhitespace(s) == s
    ensures TrailingWhitespace(s) == s
  {
    LongestPrefixUnique(s, s);
    LongestSuffixUnique(s, s);
  }

  /** A non-whitespace character lies beyond the leading run. */
  lemma LeadingStopsBefore(s: string, i: nat)
    requires i < |s| && !IsWhitespace(s[i])
    ensures |LeadingWhitespace(s)| <= i
  {
  }

  /** A non-whitespace character lies before the trailing run. */
  lemma TrailingStartsAfter(s: string, i: nat)
    requires i < |s| && !IsWhitespace(s[i])
    ensures i < |s| - |TrailingWhitespace(s)|
  {
  }

  lemma SplitAt(s: string, a: nat, b: nat)
    requires a <= b <= |s|
    ensures s == s[..a] + s[a..b] + s[b..]
  {
  }

  /**
   * When `s` holds a non-whitespace character the two runs do not overlap:
   * `s` is its leading run, a core, and its trailing run, in that order.
   */
  lemma RunsDisjoint(s: string, i: nat)
    requires i < |s| && !IsWhitespace(s[i])
    ensures |LeadingWhitespace(s)| <= i < |s| - |TrailingWhitespace(s)|
    ensures s == LeadingWhitespace(s)
                + s[|LeadingWhitespace(s)|..|s| - |TrailingWhitespace(s)|]
                + TrailingWhitespace(s)
  {
    var l, t := LeadingWhitespace(s), TrailingWhitespace(s);
    LeadingStopsBefore(s, i);
    TrailingStartsAfter(s, i);
    SplitAt(s, |l|, |s| - |t|);
    assert s[..|l|] == l;
  }
}
