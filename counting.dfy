/**
 * The exact number of states the construction creates for a balanced
 * pattern: one per character except `)`. Every literal, `*`, `+`, `(` and
 * `|` creates exactly one state; the `)` closing a group creates none.
 */
module Counting {
  import opened Patterns
  import opened Automata
  import opened Construction
  import opened Properties

  /** An invocation on a balanced `alt` adds one state per character of `alt` other than `)`. */
  lemma {:induction false} BuildCount(alt: string, entry: State, a: Nfa)
    requires Balanced(alt) && Valid(a) && entry in a.states
    ensures |Build(alt, entry, a).nfa.states| == |a.states| + |alt| - Closers(alt, 0, |alt|)
    decreases |alt|, 1, 0, 0
  {
    LoopCount(alt, 0, entry, entry, a);
  }

  /** The scan from an index at depth zero adds one state per remaining character other than `)`. */
  lemma {:induction false} LoopCount(alt: string, i: nat, entry: State, cur: State, a: Nfa)
    requires Balanced(alt) && i <= |alt| && Depth(alt, i) == 0
    requires Valid(a) && entry in a.states && cur in a.states
    ensures |Loop(alt, i, entry, cur, a).nfa.states| == |a.states| + (|alt| - i) - Closers(alt, i, |alt|)
    decreases |alt|, 0, |alt| - i, 3
  {
    if i == |alt| {
    } else if alt[i] == '|' {
      AlternationCount(alt, i, entry, a);
    } else {
      var s := Atom(alt, i, cur, a);
      AtomGrows(alt, i, cur, a);
      AtomCount(alt, i, cur, a);
      LoopStep(alt, i, entry, cur, a);
      LoopCount(alt, s.next, entry, s.cursor, s.nfa);
      ClosersSplit(alt, i, s.next, |alt|);
    }
  }

  /** A `|` at depth zero: one state per character from the `|` on other than `)`. */
  lemma {:induction false} AlternationCount(alt: string, i: nat, entry: State, a: Nfa)
    requires Balanced(alt) && i < |alt| && alt[i] == '|' && Depth(alt, i) == 0
    requires Valid(a) && entry in a.states
    ensures |Alternation(alt, i, entry, a).nfa.states| == |a.states| + (|alt| - i) - Closers(alt, i, |alt|)
    decreases |alt|, 0, |alt| - i, 0
  {
    var tail := alt[i + 1..];
    var e := Enter(a, entry);
    assert Alternation(alt, i, entry, a) == Build(tail, e.exit, e.nfa);
    assert Balanced(tail) by { TailShape(alt, i); }
    assert Closers(tail, 0, |tail|) == Closers(alt, i, |alt|) by { TailClosers(alt, i); }
    EnteredCount(tail, entry, a);
  }

  /** An entry, then an invocation on a balanced `s` from it: one state, then one per character of `s` other than `)`. */
  lemma {:induction false} EnteredCount(s: string, from: State, a: Nfa)
    requires Balanced(s) && Valid(a) && from in a.states
    ensures var e := Enter(a, from);
      |Build(s, e.exit, e.nfa).nfa.states| == |a.states| + 1 + |s| - Closers(s, 0, |s|)
    decreases |s|, 2, 0, 0
  {
    var e := Enter(a, from);
    EnterEdges(a, from);
    BuildCount(s, e.exit, e.nfa);
  }

  /** One step of the scan at depth zero: one state per character it consumes other than `)`, and depth zero after it. */
  lemma {:induction false} AtomCount(alt: string, i: nat, cur: State, a: Nfa)
    requires Balanced(alt) && i < |alt| && alt[i] != '|' && Depth(alt, i) == 0
    requires Valid(a) && cur in a.states
    ensures var r := Atom(alt, i, cur, a);
      |r.nfa.states| == |a.states| + (r.next - i) - Closers(alt, i, r.next) && Depth(alt, r.next) == 0
    decreases |alt|, 0, |alt| - i, 2
  {
    assert alt[i] != ')' && Depth(alt, i + 1) == Weight(alt[i]) by { TopLevelStep(alt, i); }
    if alt[i] == '(' {
      GroupCount(alt, i, cur, a);
    } else {
      var r := Atom(alt, i, cur, a);
      assert r.next == i + 1 && |r.nfa.states| == |a.states| + 1 by { AtomShape(alt, i, cur, a); }
      assert Closers(alt, i, i + 1) == 0;
    }
  }

  /** A group at depth zero with what follows it: one state per character consumed other than `)`, and depth zero after it. */
  lemma {:induction false} GroupCount(alt: string, i: nat, cur: State, a: Nfa)
    requires Balanced(alt) && i < |alt| && alt[i] == '(' && Depth(alt, i) == 0
    requires Valid(a) && cur in a.states
    ensures var r := Group(alt, i, cur, a);
      |r.nfa.states| == |a.states| + (r.next - i) - Closers(alt, i, r.next) && Depth(alt, r.next) == 0
    decreases |alt|, 0, |alt| - i, 1
  {
    var j := CloseIndex(alt, i);
    var b := Inside(alt, i, cur, a);
    InsideGrows(alt, i, cur, a);
    InsideCount(alt, i, cur, a);
    GroupShape(alt, i);
    ValidFresh(b.nfa);
    GroupEndCount(alt, j, |a.states|, b);
    var r := GroupEnd(alt, j, |a.states|, b);
    ClosersSplit(alt, i, j, r.next);
  }

  /** A group's interior in a balanced pattern: one state per character up to the depth scan's stop other than `)`. */
  lemma {:induction false} InsideCount(alt: string, i: nat, cur: State, a: Nfa)
    requires Balanced(alt) && i < |alt| && alt[i] == '('
    requires Valid(a) && cur in a.states
    ensures |Inside(alt, i, cur, a).nfa.states| == |a.states| + (CloseIndex(alt, i) - i) - Closers(alt, i, CloseIndex(alt, i))
    decreases |alt|, 0, |alt| - i, 0
  {
    var j := CloseIndex(alt, i);
    var body := Slice(alt, i + 1, j - 1);
    assert i + 2 <= j && body == alt[i + 1..j - 1] && Balanced(body) by { GroupShape(alt, i); }
    assert Closers(body, 0, |body|) + 1 == Closers(alt, i, j) by { GroupClosers(alt, i); }
    InsideStep(alt, i, cur, a);
    EnteredCount(body, cur, a);
  }

  /** What follows a group: a `*` or `+` adds one state and consumes one character that is no `)`. */
  lemma GroupEndCount(alt: string, j: nat, g: State, b: Built)
    requires j <= |alt| && g in b.nfa.trans && b.exit in b.nfa.trans && |b.nfa.states| !in b.nfa.states
    ensures var r := GroupEnd(alt, j, g, b);
      |r.nfa.states| == |b.nfa.states| + (r.next - j) - Closers(alt, j, r.next) &&
      Depth(alt, r.next) == Depth(alt, j)
  {
    if j < |alt| && IsPostfix(alt[j]) {
      assert Closers(alt, j, j + 1) == 0;
      assert Depth(alt, j + 1) == Depth(alt, j);
    }
  }

  /**
   * `_build_nfa` on a balanced pattern: `q0` and one state per character
   * of the pattern other than `)`.
   */
  lemma ConstructCount(pattern: string)
    requires Balanced(pattern)
    ensures |Construct(pattern).states| == |pattern| - Closers(pattern, 0, |pattern|) + 1
  {
    InitialValid();
    BuildCount(pattern, 0, Initial());
  }
}
