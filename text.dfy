/**
 * The string built-ins of JavaScript that the application leans on:
 * `trim()`, the `\s` and `\w`-like character classes, ASCII `toLowerCase()`,
 * `startsWith`, `includes` and `split(' ')`.
 * Strings are sequences of characters; lengths are counted in characters.
 */
module Text {

  /** JavaScript's WhiteSpace and LineTerminator code points: what `trim()` strips and `\s` matches. */
  predicate IsSpace(c: char) {
    c == ' ' || c == '\t' || c == '\n' || c == '\r' || c == '\U{000B}' || c == '\U{000C}'
    || c == '\U{00A0}' || c == '\U{1680}' || ('\U{2000}' <= c <= '\U{200A}')
    || c == '\U{2028}' || c == '\U{2029}' || c == '\U{202F}' || c == '\U{205F}'
    || c == '\U{3000}' || c == '\U{FEFF}'
  }

  /** True when the string is empty or made of white space only (`!s.trim()`). */
  predicate IsBlank(s: string) {
    forall i :: 0 <= i < |s| ==> IsSpace(s[i])
  }

  /** The character class `[a-zA-Z0-9_]`. */
  predicate IsWordChar(c: char) {
    ('a' <= c <= 'z') || ('A' <= c <= 'Z') || ('0' <= c <= '9') || c == '_'
  }

  predicate AllWordChars(s: string) {
    forall i :: 0 <= i < |s| ==> IsWordChar(s[i])
  }

  /** The number of white-space characters at the start of `s`. */
  function LeadingBlanks(s: string): (n: nat)
    ensures n <= |s|
    ensures forall k :: 0 <= k < n ==> IsSpace(s[k])
    ensures n == |s| || !IsSpace(s[n])
  {
    if s == [] || !IsSpace(s[0]) then 0
    else
      var n := LeadingBlanks(s[1..]);
      assert forall k :: 1 <= k < n + 1 ==> s[k] == s[1..][k - 1];
      n + 1
  }

  /** Where `s[lo..hi]` ends once its trailing white space is cut. */
  function TrailingCut(s: string, lo: nat, hi: nat): (e: nat)
    requires lo <= hi <= |s|
    ensures lo <= e <= hi
    ensures forall k :: e <= k < hi ==> IsSpace(s[k])
    ensures e == lo || !IsSpace(s[e - 1])
    decreases hi
  {
    if hi == lo || !IsSpace(s[hi - 1]) then hi else TrailingCut(s, lo, hi - 1)
  }

  /** `s.trim()`: what is left once white space is cut from both ends; it neither starts nor ends with white space. */
  function Trim(s: string): (r: string)
    ensures |r| <= |s|
    ensures r == [] || (!IsSpace(r[0]) && !IsSpace(r[|r| - 1]))
  {
    var lo := LeadingBlanks(s);
    s[lo..TrailingCut(s, lo, |s|)]
  }

  /** The text is a blank lead, then its trimmed form, then a blank trail. */
  lemma TrimBetweenBlanks(s: string)
    ensures exists lead, trail :: IsBlank(lead) && IsBlank(trail) && s == lead + Trim(s) + trail
  {
    var lo := LeadingBlanks(s);
    var hi := TrailingCut(s, lo, |s|);
    var lead, trail := s[..lo], s[hi..];
    assert IsBlank(lead) by {
      forall k | 0 <= k < lo ensures IsSpace(lead[k]) {
        assert lead[k] == s[k];
      }
    }
    assert IsBlank(trail) by {
      forall k | 0 <= k < |s| - hi ensures IsSpace(trail[k]) {
        assert trail[k] == s[hi + k];
      }
    }
    assert Trim(s) == s[lo..hi];
    assert s == lead + Trim(s) + trail;
  }

  /** The trimmed string is empty exactly when the input is blank. */
  lemma TrimEmptyIffBlank(s: string)
    ensures Trim(s) == [] <==> IsBlank(s)
  {
    var r := Trim(s);
    TrimBetweenBlanks(s);
    var lead, trail :| IsBlank(lead) && IsBlank(trail) && s == lead + r + trail;
    if r == [] {
      forall k | 0 <= k < |s| ensures IsSpace(s[k]) {
        if k < |lead| { assert s[k] == lead[k]; } else { assert s[k] == trail[k - |lead|]; }
      }
    } else {
      assert s[|lead|] == r[0];
    }
  }

  /** Trimming keeps a text blank or non-blank. */
  lemma TrimBlankIff(s: string)
    ensures IsBlank(Trim(s)) <==> IsBlank(s)
  {
    TrimEmptyIffBlank(s);
    if Trim(s) != [] {
      assert !IsSpace(Trim(s)[0]);
    }
  }

  /** Trimming twice is trimming once. */
  lemma TrimIdempotent(s: string)
    ensures Trim(Trim(s)) == Trim(s)
  {
    var r := Trim(s);
    assert LeadingBlanks(r) == 0;
    assert TrailingCut(r, 0, |r|) == |r|;
    assert r[0..|r|] == r;
  }

  /** ASCII `toLowerCase()` of one character. */
  function LowerChar(c: char): (d: char)
    ensures IsWordChar(c) <==> IsWordChar(d)
    ensures c == '#' <==> d == '#'
    ensures !('A' <= d <= 'Z')
  {
    if 'A' <= c <= 'Z' then (c as int - 'A' as int + 'a' as int) as char else c
  }

  function Lower(s: string): (r: string)
    ensures |r| == |s|
    ensures forall i :: 0 <= i < |s| ==> r[i] == LowerChar(s[i])
    ensures forall i :: 0 <= i < |r| ==> !('A' <= r[i] <= 'Z')
  {
    seq(|s|, i requires 0 <= i < |s| => LowerChar(s[i]))
  }

  /** Case folding works character by character, so it distributes over concatenation. */
  lemma LowerAppend(a: string, b: string)
    ensures Lower(a + b) == Lower(a) + Lower(b)
  {
  }

  lemma LowerIdempotent(s: string)
    ensures Lower(Lower(s)) == Lower(s)
  {
  }

  predicate StartsWith(s: string, prefix: string) {
    |prefix| <= |s| && s[..|prefix|] == prefix
  }

  /** `t` occurs in `s` starting at index `i`. */
  predicate OccursAt(s: string, t: string, i: int) {
    0 <= i <= |s| - |t| && s[i..i + |t|] == t
  }

  /** `s.includes(t)`: `t` occurs somewhere in `s`. */
  predicate Contains(s: string, t: string) {
    exists i | 0 <= i <= |s| - |t| :: OccursAt(s, t, i)
  }
}
