/** Character-level text utilities: the `lines` extension of PortService.swift
    and Swift's `split`, which drops empty pieces. */
module Text {

  /** Length of the longest prefix of `s` whose characters all satisfy `p`. */
  function Span(s: string, p: char -> bool): (n: nat)
    ensures n <= |s|
    ensures forall k :: 0 <= k < n ==> p(s[k])
    ensures n == |s| || !p(s[n])
  {
    if |s| == 0 || !p(s[0]) then 0 else 1 + Span(s[1..], p)
  }

  /** Swift's `split(whereSeparator:)` with its default
      `omittingEmptySubsequences: true`: the maximal runs of non-separator
      characters, in order. */
  function Split(s: string, sep: char -> bool): (pieces: seq<string>)
    ensures forall k :: 0 <= k < |pieces| ==> |pieces[k]| > 0
    ensures forall k, j :: 0 <= k < |pieces| && 0 <= j < |pieces[k]| ==> !sep(pieces[k][j])
    decreases |s|
  {
    if |s| == 0 then []
    else if sep(s[0]) then Split(s[1..], sep)
    else
      var n := Span(s, c => !sep(c));
      [s[..n]] + Split(s[n..], sep)
  }

  /** Swift's `Character.isNewline`: LF, VT, FF, CR, NEL, LINE SEPARATOR and
      PARAGRAPH SEPARATOR.  A CR LF pair is one Swift character; as two
      separators it yields the same pieces, since empty pieces are dropped. */
  predicate IsNewline(c: char) {
    c == '\n' || c == '\U{000B}' || c == '\U{000C}' || c == '\r'
    || c == '\U{0085}' || c == '\U{2028}' || c == '\U{2029}'
  }

  predicate IsSpace(c: char) {
    c == ' '
  }

  /** The non-empty lines of `s`. */
  function Lines(s: string): (lines: seq<string>)
    ensures forall k :: 0 <= k < |lines| ==> |lines[k]| > 0
    ensures forall k, j :: 0 <= k < |lines| && 0 <= j < |lines[k]| ==> !IsNewline(lines[k][j])
  {
    Split(s, IsNewline)
  }

  /** The non-empty space-separated fields of `s`: `split(separator: " ")`. */
  function Fields(s: string): (fields: seq<string>)
    ensures forall k :: 0 <= k < |fields| ==> |fields[k]| > 0
    ensures forall k, j :: 0 <= k < |fields| && 0 <= j < |fields[k]| ==> fields[k][j] != ' '
  {
    Split(s, IsSpace)
  }

  /** The characters of `s` that satisfy `p`, in order. */
  function Keep(s: string, p: char -> bool): (r: string)
    ensures |r| <= |s|
  {
    if |s| == 0 then [] else (if p(s[0]) then [s[0]] else []) + Keep(s[1..], p)
  }

  /** All pieces, concatenated. */
  function Flatten(pieces: seq<string>): string {
    if |pieces| == 0 then [] else pieces[0] + Flatten(pieces[1..])
  }

  /** The pieces, separated by single `c` characters. */
  function Join(pieces: seq<string>, c: char): string {
    if |pieces| == 0 then []
    else if |pieces| == 1 then pieces[0]
    else pieces[0] + [c] + Join(pieces[1..], c)
  }

  /** Number of occurrences of `c` in `s`. */
  function Count(s: string, c: char): nat {
    if |s| == 0 then 0 else (if s[0] == c then 1 else 0) + Count(s[1..], c)
  }

  lemma {:induction false} KeepConcat(a: string, b: string, p: char -> bool)
    ensures Keep(a + b, p) == Keep(a, p) + Keep(b, p)
    decreases |a|
  {
    if |a| == 0 {
      assert a + b == b;
    } else {
      var head: string := if p(a[0]) then [a[0]] else [];
      assert (a + b)[0] == a[0];
      assert (a + b)[1..] == a[1..] + b;
      assert Keep(a + b, p) == head + Keep(a[1..] + b, p);
      KeepConcat(a[1..], b, p);
      assert head + (Keep(a[1..], p) + Keep(b, p)) == (head + Keep(a[1..], p)) + Keep(b, p);
    }
  }

  lemma {:induction false} KeepAll(s: string, p: char -> bool)
    requires forall k :: 0 <= k < |s| ==> p(s[k])
    ensures Keep(s, p) == s
    decreases |s|
  {
    if |s| > 0 {
      KeepAll(s[1..], p);
    }
  }

  /** Splitting loses exactly the separators: the pieces, concatenated, are
      the non-separator characters of `s` in their original order. */
  lemma {:induction false} SplitKeepsNonSeparators(s: string, sep: char -> bool)
    ensures Flatten(Split(s, sep)) == Keep(s, c => !sep(c))
    decreases |s|
  {
    var p := c => !sep(c);
    if |s| == 0 {
    } else if sep(s[0]) {
      SplitKeepsNonSeparators(s[1..], sep);
    } else {
      var n := Span(s, p);
      assert s == s[..n] + s[n..];
      KeepConcat(s[..n], s[n..], p);
      KeepAll(s[..n], p);
      SplitKeepsNonSeparators(s[n..], sep);
      var pieces := Split(s, sep);
      assert pieces == [s[..n]] + Split(s[n..], sep);
      assert pieces[1..] == Split(s[n..], sep);
    }
  }

  /** Split is a left inverse of Join for non-empty separator-free pieces. */
  lemma {:induction false} SplitJoin(pieces: seq<string>, c: char, sep: char -> bool)
    requires sep(c)
    requires forall k :: 0 <= k < |pieces| ==> |pieces[k]| > 0
    requires forall k, j :: 0 <= k < |pieces| && 0 <= j < |pieces[k]| ==> !sep(pieces[k][j])
    ensures Split(Join(pieces, c), sep) == pieces
    decreases |pieces|
  {
    if |pieces| == 0 {
    } else {
      var head := pieces[0];
      var s := Join(pieces, c);
      var n := |head|;
      if |pieces| == 1 {
        assert s == head;
        SpanOfRun(s, n, c => !sep(c));
        assert s[..n] == head && s[n..] == [];
        assert Split(s, sep) == [head] + Split([], sep);
      } else {
        var rest := Join(pieces[1..], c);
        assert s == head + [c] + rest;
        assert s[n] == c;
        SpanOfRun(s, n, c => !sep(c));
        assert s[..n] == head;
        assert s[n..] == [c] + rest;
        assert ([c] + rest)[1..] == rest;
        assert Split(s[n..], sep) == Split(rest, sep);
        SplitJoin(pieces[1..], c, sep);
        assert Split(s, sep) == [head] + Split(s[n..], sep);
        assert pieces == [head] + pieces[1..];
      }
    }
  }

  /** A trailing separator adds no piece. */
  lemma {:induction false} SplitDropsTrailing(s: string, c: char, sep: char -> bool)
    requires sep(c)
    ensures Split(s + [c], sep) == Split(s, sep)
    decreases |s|
  {
    var t := s + [c];
    if |s| == 0 {
      assert Split(t, sep) == Split(t[1..], sep);
      assert t[1..] == [];
    } else if sep(s[0]) {
      assert t[1..] == s[1..] + [c];
      SplitDropsTrailing(s[1..], c, sep);
    } else {
      var n := Span(s, c => !sep(c));
      SpanOfRun(t, n, c => !sep(c));
      assert t[..n] == s[..n];
      assert t[n..] == s[n..] + [c];
      SplitDropsTrailing(s[n..], c, sep);
    }
  }

  /** A separator-free non-empty string is a single piece. */
  lemma SplitWhole(s: string, sep: char -> bool)
    requires |s| > 0
    requires forall k :: 0 <= k < |s| ==> !sep(s[k])
    ensures Split(s, sep) == [s]
  {
    SpanOfRun(s, |s|, c => !sep(c));
    assert s[..|s|] == s && s[|s|..] == [];
  }

  /** A piece ends only at a separator: splitting at any separator splits
      the two sides independently.  With `SplitWhole` and `Split([]) == []`
      this determines `Split` on every input; in particular a run of
      separators produces no empty piece. */
  lemma {:induction false} SplitAtSeparator(a: string, c: char, b: string, sep: char -> bool)
    requires sep(c)
    ensures Split(a + [c] + b, sep) == Split(a, sep) + Split(b, sep)
    decreases |a|
  {
    var t := a + [c] + b;
    if |a| == 0 {
      assert t == [c] + b;
      assert t[1..] == b;
    } else if sep(a[0]) {
      assert t[0] == a[0];
      assert t[1..] == a[1..] + [c] + b;
      SplitAtSeparator(a[1..], c, b, sep);
    } else {
      var n := Span(a, c => !sep(c));
      assert t[..|a|] == a;
      assert t[|a|] == c;
      SpanOfRun(t, n, c => !sep(c));
      assert t[..n] == a[..n];
      assert t[n..] == a[n..] + [c] + b;
      SplitAtSeparator(a[n..], c, b, sep);
      assert Split(t, sep) == [a[..n]] + (Split(a[n..], sep) + Split(b, sep));
    }
  }

  /** A run of `p` characters of length `n`, ended by a non-`p` character or
      by the end of `s`, is exactly the span. */
  lemma SpanOfRun(s: string, n: nat, p: char -> bool)
    requires n <= |s|
    requires forall k :: 0 <= k < n ==> p(s[k])
    requires n == |s| || !p(s[n])
    ensures Span(s, p) == n
  {
  }
}
