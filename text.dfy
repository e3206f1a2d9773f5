/** Case-insensitive substring search on strings. */
module Text {

  /** Folds an ASCII upper-case letter to lower case and leaves every other character alone. */
  function LowerChar(c: char): (d: char)
    ensures !('A' <= d <= 'Z')
    ensures !('A' <= c <= 'Z') ==> d == c
    ensures 'A' <= c <= 'Z' ==> d as int == c as int + 32
  {
    if 'A' <= c <= 'Z' then (c as int + 32) as char else c
  }

  function Lower(s: string): string
  {
    seq(|s|, i requires 0 <= i < |s| => LowerChar(s[i]))
  }

  /** `p` occurs in `s` starting at some position. */
  predicate Occurs(p: string, s: string)
  {
    exists i :: 0 <= i <= |s| && p <= s[i..]
  }

  /** A case-insensitive match of `pattern` inside `text`, read as a literal string. */
  predicate ContainsIgnoreCase(text: string, pattern: string)
  {
    Occurs(Lower(pattern), Lower(text))
  }

  /** Folding a folded string changes nothing. */
  lemma LowerIdempotent(s: string)
    ensures Lower(Lower(s)) == Lower(s)
  {
  }

  /** The case of the search pattern does not matter. */
  lemma PatternCaseIrrelevant(text: string, pattern: string)
    ensures ContainsIgnoreCase(text, Lower(pattern)) == ContainsIgnoreCase(text, pattern)
  {
    LowerIdempotent(pattern);
  }

  /** A pattern that occurs exactly as written is also found ignoring case. */
  lemma ExactOccurrenceMatches(text: string, pattern: string)
    requires Occurs(pattern, text)
    ensures ContainsIgnoreCase(text, pattern)
  {
    var i :| 0 <= i <= |text| && pattern <= text[i..];
    assert Lower(pattern) <= Lower(text)[i..] by {
      forall k | 0 <= k < |pattern|
        ensures Lower(pattern)[k] == Lower(text)[i..][k]
      {
        assert pattern[k] == text[i + k];
      }
    }
  }
}
