/** The two regular expressions of `loadLocalPorts` (PortService.swift):
    the version pattern `[0-9][0-9a-z-]*(\.[0-9a-z-]+){0,4}`, used with
    `firstMatch`, and the name pattern `[a-zA-Z0-9-.]+`, used with
    `wholeMatch`.  The matchers scan a string by index; the patterns' own
    languages are stated separately (`IsToken`, `IsName`) and tied to the
    matchers by lemmas. */
module VersionPattern {
  import opened Wrappers
  import opened Text

  /** Most `.`-groups the version pattern takes: the `{0,4}`. */
  const MaxGroups: nat := 4

  predicate IsDigit(c: char) {
    '0' <= c <= '9'
  }

  /** The class `[0-9a-z-]`; it does not contain `.`. */
  predicate IsTokenChar(c: char) {
    IsDigit(c) || 'a' <= c <= 'z' || c == '-'
  }

  /** The class `[a-zA-Z0-9-.]`, whose `-` after the range `0-9` is literal. */
  predicate IsNameChar(c: char) {
    'a' <= c <= 'z' || 'A' <= c <= 'Z' || IsDigit(c) || c == '-' || c == '.'
  }

  // ---------------------------------------------------------------------
  // The languages of the two patterns
  // ---------------------------------------------------------------------

  /** Every character is in `[0-9a-z-]` or is a `.`, and every `.` is
      followed by a `[0-9a-z-]` character (so none ends the string). */
  predicate WellDotted(t: string) {
    && (forall k :: 0 <= k < |t| ==> IsTokenChar(t[k]) || t[k] == '.')
    && (forall k :: 0 <= k < |t| && t[k] == '.' ==> k + 1 < |t| && IsTokenChar(t[k + 1]))
  }

  /** The strings the version pattern matches, stated without reference to
      how a matcher finds them: a digit first, well dotted, and at most four
      `.`s.  Cutting such a string at its dots gives the digit-led run and
      the up to four non-empty groups of the pattern, and back. */
  predicate IsToken(t: string) {
    |t| > 0 && IsDigit(t[0]) && WellDotted(t) && Count(t, '.') <= MaxGroups
  }

  /** The strings the name pattern whole-matches. */
  predicate IsName(t: string) {
    |t| > 0 && forall k :: 0 <= k < |t| ==> IsNameChar(t[k])
  }

  // ---------------------------------------------------------------------
  // The same notions over an index range of a larger string
  // ---------------------------------------------------------------------

  predicate WellDottedIn(s: string, i: nat, e: nat)
    requires i <= e <= |s|
  {
    && (forall k :: i <= k < e ==> IsTokenChar(s[k]) || s[k] == '.')
    && (forall k :: i <= k < e && s[k] == '.' ==> k + 1 < e && IsTokenChar(s[k + 1]))
  }

  /** Number of `.`s in `s[i..e]`: `Count` over an index range.  The
      matchers work on indices of the whole string, where recursion on
      slices would be far costlier to reason about; `DotsInIsCount` ties
      this count back to `Count`, in which `IsToken` is stated. */
  function DotsIn(s: string, i: nat, e: nat): nat
    requires i <= e <= |s|
    decreases e - i
  {
    if i == e then 0 else (if s[i] == '.' then 1 else 0) + DotsIn(s, i + 1, e)
  }

  lemma {:induction false} DotsInSplit(s: string, i: nat, m: nat, e: nat)
    requires i <= m <= e <= |s|
    ensures DotsIn(s, i, e) == DotsIn(s, i, m) + DotsIn(s, m, e)
    decreases m - i
  {
    if i < m {
      DotsInSplit(s, i + 1, m, e);
    }
  }

  lemma {:induction false} DotsInRun(s: string, i: nat, e: nat)
    requires i <= e <= |s|
    requires forall k :: i <= k < e ==> IsTokenChar(s[k])
    ensures DotsIn(s, i, e) == 0
    decreases e - i
  {
    if i < e {
      DotsInRun(s, i + 1, e);
    }
  }

  lemma {:induction false} DotsInIsCount(s: string, i: nat, e: nat)
    requires i <= e <= |s|
    ensures DotsIn(s, i, e) == Count(s[i..e], '.')
    decreases e - i
  {
    if i < e {
      assert s[i..e][1..] == s[i + 1..e];
      DotsInIsCount(s, i + 1, e);
    }
  }

  /** The range form of `IsToken`. */
  lemma TokenIn(s: string, i: nat, e: nat)
    requires i <= e <= |s|
    ensures IsToken(s[i..e]) <==>
              i < e && IsDigit(s[i]) && WellDottedIn(s, i, e) && DotsIn(s, i, e) <= MaxGroups
  {
    var t := s[i..e];
    DotsInIsCount(s, i, e);
    assert forall k :: 0 <= k < |t| ==> t[k] == s[i + k];
    if WellDottedIn(s, i, e) {
      forall k | 0 <= k < |t| && t[k] == '.'
        ensures k + 1 < |t| && IsTokenChar(t[k + 1])
      {
        assert s[i + k] == '.';
      }
    }
    if WellDotted(t) {
      forall k | i <= k < e
        ensures IsTokenChar(s[k]) || s[k] == '.'
      {
        assert t[k - i] == s[k];
      }
      forall k | i <= k < e && s[k] == '.'
        ensures k + 1 < e && IsTokenChar(s[k + 1])
      {
        assert t[k - i] == '.';
      }
    }
  }

  // ---------------------------------------------------------------------
  // The matcher
  // ---------------------------------------------------------------------

  /** End of the maximal `[0-9a-z-]` run that starts at `i`. */
  function RunEnd(s: string, i: nat): (e: nat)
    requires i <= |s|
    ensures i <= e <= |s|
    ensures forall k :: i <= k < e ==> IsTokenChar(s[k])
    ensures e == |s| || !IsTokenChar(s[e])
    decreases |s| - i
  {
    if i == |s| || !IsTokenChar(s[i]) then i else RunEnd(s, i + 1)
  }

  /** A match ending at `m` cannot be extended by the pattern: the next
      character is outside `[0-9a-z-]`, and if it is a `.` then either no
      group is left (`full`) or no `[0-9a-z-]` character follows it. */
  predicate Blocked(s: string, m: nat, full: bool) {
    m == |s|
    || (m < |s| && !IsTokenChar(s[m])
        && (s[m] == '.' ==> full || m + 1 == |s| || !IsTokenChar(s[m + 1])))
  }

  /** End of up to `budget` repetitions of `(\.[0-9a-z-]+)` starting at
      `i`, each run as long as possible.  Called just after a maximal
      `[0-9a-z-]` run, hence the precondition. */
  function GroupsEnd(s: string, i: nat, budget: nat): (e: nat)
    requires i <= |s|
    requires i == |s| || !IsTokenChar(s[i])
    ensures i <= e <= |s|
    ensures WellDottedIn(s, i, e)
    ensures DotsIn(s, i, e) <= budget
    ensures Blocked(s, e, DotsIn(s, i, e) == budget)
    decreases budget
  {
    if budget > 0 && i + 1 < |s| && s[i] == '.' && IsTokenChar(s[i + 1]) then
      var r := RunEnd(s, i + 1);
      var e := GroupsEnd(s, r, budget - 1);
      GroupStep(s, i, r, e);
      e
    else
      i
  }

  /** One group: a `.`, a maximal run, then well-dotted groups. */
  lemma GroupStep(s: string, i: nat, r: nat, e: nat)
    requires i + 1 < r <= e <= |s| && s[i] == '.'
    requires forall k :: i + 1 <= k < r ==> IsTokenChar(s[k])
    requires WellDottedIn(s, r, e)
    ensures WellDottedIn(s, i, e)
    ensures DotsIn(s, i, e) == 1 + DotsIn(s, r, e)
  {
    DotsInRun(s, i + 1, r);
    DotsInSplit(s, i + 1, r, e);
  }

  /** End of the match of the version pattern that starts at the digit
      `s[i]`: the greedy run, then the greedy groups. */
  function MatchEnd(s: string, i: nat): (e: nat)
    requires i < |s| && IsDigit(s[i])
    ensures i < e <= |s|
    ensures WellDottedIn(s, i, e)
    ensures DotsIn(s, i, e) <= MaxGroups
    ensures Blocked(s, e, DotsIn(s, i, e) == MaxGroups)
  {
    var r := RunEnd(s, i + 1);
    var e := GroupsEnd(s, r, MaxGroups);
    DotsInRun(s, i, r);
    DotsInSplit(s, i, r, e);
    e
  }

  /** Index of the first digit of `s` at or after `i`, or `|s|`. */
  function FirstDigitFrom(s: string, i: nat): (d: nat)
    requires i <= |s|
    ensures i <= d <= |s|
    ensures forall k :: i <= k < d ==> !IsDigit(s[k])
    ensures d < |s| ==> IsDigit(s[d])
    decreases |s| - i
  {
    if i == |s| || IsDigit(s[i]) then i else FirstDigitFrom(s, i + 1)
  }

  /** Swift's `firstMatch(of:)` for the version pattern: the match that
      starts at the first digit, or none when there is no digit. */
  function FirstMatch(s: string): (r: Option<string>)
    ensures r.None? <==> forall k :: 0 <= k < |s| ==> !IsDigit(s[k])
    ensures r.Some? ==> IsToken(r.value)
  {
    var i := FirstDigitFrom(s, 0);
    if i == |s| then None
    else
      var e := MatchEnd(s, i);
      TokenIn(s, i, e);
      Some(s[i..e])
  }

  // ---------------------------------------------------------------------
  // The match is the leftmost-longest one
  // ---------------------------------------------------------------------

  /** No match of the version pattern starts before index `i` of `s`. */
  ghost predicate NoMatchBefore(s: string, i: nat) {
    forall k, j :: 0 <= k < i && k <= j <= |s| ==> !IsToken(s[k..j])
  }

  /** No match of the version pattern longer than `len` starts at `i`. */
  ghost predicate NoLongerMatch(s: string, i: nat, len: nat) {
    forall j :: i + len < j <= |s| ==> !IsToken(s[i..j])
  }

  /** `t` is the leftmost-longest match of the version pattern in `s`,
      found at index `i`: no match starts before `i`, `t` occupies
      `s[i..i + |t|]`, and no longer match starts at `i`. */
  ghost predicate LeftmostLongestAt(s: string, i: nat, t: string) {
    && i + |t| <= |s|
    && t == s[i..i + |t|]
    && IsToken(t)
    && NoMatchBefore(s, i)
    && NoLongerMatch(s, i, |t|)
  }

  /** The version pattern's `firstMatch` is the leftmost-longest match:
      none exactly when `s` holds no ASCII digit, otherwise the token that
      starts at the first digit and cannot be extended.  For this pattern
      the greedy backtracking match Swift returns is that one, because the
      class after the first digit excludes `.`. */
  lemma FirstMatchIsLeftmostLongest(s: string)
    ensures FirstMatch(s).None? <==> FirstDigitFrom(s, 0) == |s|
    ensures FirstMatch(s).Some? ==>
              LeftmostLongestAt(s, FirstDigitFrom(s, 0), FirstMatch(s).value)
  {
    var i := FirstDigitFrom(s, 0);
    if i < |s| {
      MatchIsLeftmostLongest(s, i);
    }
  }

  /** The match `MatchEnd` finds at the first digit is leftmost-longest. */
  lemma MatchIsLeftmostLongest(s: string, i: nat)
    requires i < |s| && IsDigit(s[i])
    requires forall k :: 0 <= k < i ==> !IsDigit(s[k])
    ensures LeftmostLongestAt(s, i, s[i..MatchEnd(s, i)])
  {
    TokenIn(s, i, MatchEnd(s, i));
    NoDigitNoMatch(s, i);
    MatchIsLongest(s, i);
  }

  /** Every match starts with a digit, so none starts before the first. */
  lemma NoDigitNoMatch(s: string, i: nat)
    requires i <= |s|
    requires forall k :: 0 <= k < i ==> !IsDigit(s[k])
    ensures NoMatchBefore(s, i)
  {
    forall k, j | 0 <= k < i && k <= j <= |s|
      ensures !IsToken(s[k..j])
    {
      if j > k {
        assert s[k..j][0] == s[k];
      }
    }
  }

  /** No match that starts at the digit `s[i]` is longer than the one
      `MatchEnd` finds. */
  lemma MatchIsLongest(s: string, i: nat)
    requires i < |s| && IsDigit(s[i])
    ensures NoLongerMatch(s, i, MatchEnd(s, i) - i)
  {
    var e := MatchEnd(s, i);
    forall j | e < j <= |s|
      ensures !IsToken(s[i..j])
    {
      TokenIn(s, i, j);
      if WellDottedIn(s, i, j) && DotsIn(s, i, j) <= MaxGroups {
        assert s[e] == '.';
        assert IsTokenChar(s[e + 1]);
        DotsInSplit(s, i, e, j);
      }
    }
  }

  /** Swift's `wholeMatch(of:)` for the name pattern, scanned left to right. */
  function MatchesName(t: string): (b: bool)
    ensures b <==> IsName(t)
  {
    |t| > 0 && IsNameChar(t[0]) && (|t| == 1 || MatchesName(t[1..]))
  }
}
