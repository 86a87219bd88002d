/**
 * The pattern side of the regex-to-NFA constructor: the operator
 * characters, parenthesis depth and balance, and the depth-counting scan
 * that finds the `)` closing a group.
 */
module Patterns {

  predicate IsOperator(c: char) {
    c == '(' || c == ')' || c == '|' || c == '*' || c == '+'
  }

  predicate IsPostfix(c: char) {
    c == '*' || c == '+'
  }

  /** How the depth scan changes its counter on `c`: up on `(`, down on `)`, unchanged otherwise. */
  function Weight(c: char): (r: int)
    ensures -1 <= r <= 1
    ensures r > 0 <==> c == '('
    ensures r < 0 <==> c == ')'
  {
    if c == '(' then 1 else if c == ')' then -1 else 0
  }

  /** The parenthesis depth after the first `k` characters of `s`. */
  function Depth(s: string, k: nat): int
    requires k <= |s|
  {
    if k == 0 then 0 else Depth(s, k - 1) + Weight(s[k - 1])
  }

  /** The depth inside a slice is the depth of the whole string, re-based at the slice's start. */
  lemma {:induction false} DepthOfSlice(s: string, a: nat, b: nat, t: nat)
    requires a <= b <= |s| && t <= b - a
    ensures Depth(s[a..b], t) == Depth(s, a + t) - Depth(s, a)
  {
    if t > 0 {
      DepthOfSlice(s, a, b, t - 1);
      assert s[a..b][t - 1] == s[a + t - 1];
    }
  }

  /** Every prefix has at least as many `(` as `)`, and the whole string has as many. */
  predicate Balanced(s: string) {
    Depth(s, |s|) == 0 && forall k :: 0 <= k <= |s| ==> Depth(s, k) >= 0
  }

  /**
   * The depth scan from index `j` with counter `depth`: it stops at the end
   * of `s` or as soon as the counter is no longer positive.
   */
  function ScanFrom(s: string, j: nat, depth: int): (r: nat)
    requires j <= |s|
    ensures j <= r <= |s|
    decreases |s| - j
  {
    if j < |s| && depth > 0 then ScanFrom(s, j + 1, depth + Weight(s[j])) else j
  }

  /** Where the scan of a group opened at index `i` stops: one past its `)`. */
  function CloseIndex(s: string, i: nat): (j: nat)
    requires i < |s|
    ensures i < j <= |s|
  {
    ScanFrom(s, i + 1, 1)
  }

  /**
   * The scan stops at the first index where its counter, which tracks the
   * depth relative to index `j`, is no longer positive, or at the end of `s`.
   */
  lemma {:induction false} ScanFromStops(s: string, j: nat, depth: int)
    requires j <= |s|
    decreases |s| - j
    ensures var r := ScanFrom(s, j, depth);
      (forall k :: j <= k < r ==> depth + Depth(s, k) - Depth(s, j) > 0) &&
      (r == |s| || depth + Depth(s, r) - Depth(s, j) <= 0)
  {
    if j < |s| && depth > 0 {
      ScanFromStops(s, j + 1, depth + Weight(s[j]));
    }
  }

  /**
   * The scan of a group opened at `i` stops at the first index after `i`
   * where the depth is back to the depth before the `(`, or at the end.
   */
  lemma CloseIndexStops(s: string, i: nat)
    requires i < |s| && s[i] == '('
    ensures var j := CloseIndex(s, i);
      i < j <= |s| &&
      (forall k :: i < k < j ==> Depth(s, k) > Depth(s, i)) &&
      (j == |s| || Depth(s, j) == Depth(s, i))
  {
    var j := CloseIndex(s, i);
    ScanFromStops(s, i + 1, 1);
    if j < |s| {
      assert j > i + 1;
      assert Depth(s, j) == Depth(s, j - 1) + Weight(s[j - 1]);
    }
  }

  /**
   * The depth scan of a group, as a loop: starting one past the `(` at `i`
   * with depth 1, it stops one past the matching `)` or at the end of `alt`.
   */
  method MatchParen(alt: string, i: nat) returns (j: nat)
    requires i < |alt| && alt[i] == '('
    ensures j == CloseIndex(alt, i)
    ensures i < j <= |alt|
    ensures forall k :: i < k < j ==> Depth(alt, k) > Depth(alt, i)
    ensures j == |alt| || Depth(alt, j) == Depth(alt, i)
  {
    var depth := 1;
    j := i + 1;
    while j < |alt| && depth > 0
      invariant i + 1 <= j <= |alt|
      invariant depth == Depth(alt, j) - Depth(alt, i)
      invariant ScanFrom(alt, j, depth) == CloseIndex(alt, i)
      decreases |alt| - j
    {
      if alt[j] == '(' {
        depth := depth + 1;
      } else if alt[j] == ')' {
        depth := depth - 1;
      }
      j := j + 1;
    }
    CloseIndexStops(alt, i);
  }

  /**
   * In a balanced pattern the scan of a group opened at `i` ends one past the
   * matching `)`, the first index after `i` at which the depth is back to
   * what it was before the `(`.
   */
  lemma GroupClose(s: string, i: nat)
    requires Balanced(s) && i < |s| && s[i] == '('
    ensures var j := CloseIndex(s, i);
      i + 2 <= j <= |s| && s[j - 1] == ')' && Depth(s, j) == Depth(s, i) &&
      forall k :: i < k < j ==> Depth(s, k) > Depth(s, i)
  {
    var j := CloseIndex(s, i);
    CloseIndexStops(s, i);
    assert Depth(s, j) == Depth(s, j - 1) + Weight(s[j - 1]);
    assert Depth(s, i) >= 0;
  }

  /**
   * In a balanced pattern the scan of a group opened at `i` ends one past the
   * matching `)`, the interior between the parentheses is balanced, and the
   * depth after the group is the depth before it.
   */
  lemma GroupShape(s: string, i: nat)
    requires Balanced(s) && i < |s| && s[i] == '('
    ensures var j := CloseIndex(s, i);
      i + 2 <= j <= |s| && s[j - 1] == ')' && Depth(s, j) == Depth(s, i) &&
      Balanced(s[i + 1..j - 1])
  {
    var j := CloseIndex(s, i);
    GroupClose(s, i);
    var body := s[i + 1..j - 1];
    forall t | 0 <= t <= |body|
      ensures Depth(body, t) >= 0
    {
      DepthOfSlice(s, i + 1, j - 1, t);
    }
    DepthOfSlice(s, i + 1, j - 1, |body|);
    assert Depth(s, j) == Depth(s, j - 1) + Weight(s[j - 1]);
  }

  /**
   * The part of a balanced pattern after an index at depth zero is itself
   * balanced.
   */
  lemma SuffixBalanced(s: string, a: nat)
    requires Balanced(s) && a <= |s| && Depth(s, a) == 0
    ensures Balanced(s[a..])
  {
    var tail := s[a..];
    assert tail == s[a..|s|];
    forall t | 0 <= t <= |tail|
      ensures Depth(tail, t) >= 0
    {
      DepthOfSlice(s, a, |s|, t);
    }
    DepthOfSlice(s, a, |s|, |tail|);
  }

  /**
   * The tail after a `|` read at depth zero, which the scan hands to a
   * recursive invocation, is balanced.
   */
  lemma TailShape(s: string, i: nat)
    requires Balanced(s) && i < |s| && s[i] == '|' && Depth(s, i) == 0
    ensures Balanced(s[i + 1..])
  {
    assert Depth(s, i + 1) == 0;
    SuffixBalanced(s, i + 1);
  }

  /** A character read at depth zero of a balanced pattern is no `)`, and the depth moves by its weight. */
  lemma TopLevelStep(s: string, i: nat)
    requires Balanced(s) && i < |s| && Depth(s, i) == 0
    ensures Depth(s, i + 1) == Weight(s[i]) && s[i] != ')'
  {
    assert Depth(s, i + 1) >= 0;
  }

  /** The number of `)` among the characters of `s` from `lo` up to `hi`. */
  function Closers(s: string, lo: nat, hi: nat): (n: nat)
    requires lo <= hi <= |s|
    ensures n <= hi - lo
    decreases hi - lo
  {
    if lo == hi then 0 else Closers(s, lo, hi - 1) + (if s[hi - 1] == ')' then 1 else 0)
  }

  /** Counting `)` over two adjacent ranges adds up. */
  lemma {:induction false} ClosersSplit(s: string, lo: nat, mid: nat, hi: nat)
    requires lo <= mid <= hi <= |s|
    ensures Closers(s, lo, mid) + Closers(s, mid, hi) == Closers(s, lo, hi)
    decreases hi - mid
  {
    if mid < hi {
      ClosersSplit(s, lo, mid, hi - 1);
    }
  }

  /** Counting `)` in a slice is counting in the whole string between the slice's bounds. */
  lemma {:induction false} ClosersOfSlice(s: string, a: nat, b: nat, t: nat)
    requires a <= b <= |s| && t <= b - a
    ensures Closers(s[a..b], 0, t) == Closers(s, a, a + t)
  {
    if t > 0 {
      ClosersOfSlice(s, a, b, t - 1);
      assert s[a..b][t - 1] == s[a + t - 1];
    }
  }

  /**
   * In a balanced pattern a group opened at `i` holds one `)` more than its
   * interior: the one that closes it.
   */
  lemma GroupClosers(s: string, i: nat)
    requires Balanced(s) && i < |s| && s[i] == '('
    ensures var j := CloseIndex(s, i);
      i + 2 <= j && Closers(s[i + 1..j - 1], 0, j - 2 - i) + 1 == Closers(s, i, j)
  {
    var j := CloseIndex(s, i);
    GroupClose(s, i);
    ClosersOfSlice(s, i + 1, j - 1, j - 2 - i);
    ClosersSplit(s, i, i + 1, j - 1);
    ClosersSplit(s, i, j - 1, j);
  }

  /** The tail after a `|` holds all the `)` from the `|` on. */
  lemma TailClosers(s: string, i: nat)
    requires i < |s| && s[i] == '|'
    ensures Closers(s[i + 1..], 0, |s| - i - 1) == Closers(s, i, |s|)
  {
    assert s[i + 1..] == s[i + 1..|s|];
    ClosersOfSlice(s, i + 1, |s|, |s| - i - 1);
    ClosersSplit(s, i, i + 1, |s|);
  }
}
