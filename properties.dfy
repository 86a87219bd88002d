/**
 * What the construction guarantees. Each step adds exactly the edges the
 * source writes for it; every invocation keeps the automaton valid, removes
 * nothing, adds at most one state per pattern character and marks its exit
 * accepting.
 */
module Properties {
  import opened Patterns
  import opened Automata
  import opened Construction

  /** `r` is `a` with the fresh state `|a.states|` added; the start and accept states stay. */
  ghost predicate Adds(a: Nfa, r: Built) {
    Valid(r.nfa) && r.exit == |a.states| && r.exit !in a.states &&
    r.nfa.states == a.states + {r.exit} && r.nfa.start == a.start && r.nfa.accept == a.accept
  }

  /** One added edge between states of a valid automaton: it stays valid and gains exactly that edge. */
  lemma EdgeStep(a: Nfa, p: State, s: char, q: State)
    requires Valid(a) && p in a.states && q in a.states
    ensures Valid(AddEdge(a, p, s, q)) && Edges(AddEdge(a, p, s, q)) == Edges(a) + {(p, s, q)}
  {
    AddEdgeValid(a, p, s, q);
    AddEdgeEdges(a, p, s, q);
  }

  /** An entry: a fresh state and the one edge `from --ε--> q`. */
  lemma EnterEdges(a: Nfa, from: State)
    requires Valid(a) && from in a.states
    ensures var r := Enter(a, from);
      Adds(a, r) && Edges(r.nfa) == Edges(a) + {(from, EPSILON, r.exit)}
  {
    NewStateValid(a);
    var (a1, q) := NewState(a);
    AddEdgeValid(a1, from, EPSILON, q);
    AddEdgeEdges(a1, from, EPSILON, q);
  }

  /** An entry grows a valid automaton by one state. */
  lemma EnterGrows(a: Nfa, from: State)
    requires Valid(a) && from in a.states
    ensures var r := Enter(a, from); Grows(a, r.nfa, 1) && r.exit == |a.states| && r.exit in r.nfa.states
  {
    var r := Enter(a, from);
    assert Adds(a, r) && Edges(r.nfa) == Edges(a) + {(from, EPSILON, r.exit)} by { EnterEdges(a, from); }
    AddsGrows(a, r, (from, EPSILON, r.exit));
  }

  /** A literal `c`: a fresh state `t` and the one edge `cur --c--> t`. */
  lemma LiteralEdges(a: Nfa, c: char, cur: State)
    requires Valid(a) && cur in a.states
    ensures var r := Literal(a, c, cur);
      Adds(a, r) && Edges(r.nfa) == Edges(a) + {(cur, c, r.exit)}
  {
    NewStateValid(a);
    var (a1, t) := NewState(a);
    AddEdgeValid(a1, cur, c, t);
    AddEdgeEdges(a1, cur, c, t);
  }

  /**
   * A `*` after `prev` adds the loop `cur --prev--> cur` and `cur --ε--> t`;
   * a `+` adds `cur --prev--> t` and `t --ε--> cur`.
   */
  lemma RepeatEdges(a: Nfa, op: char, prev: char, cur: State)
    requires Valid(a) && cur in a.states
    ensures Adds(a, Repeat(a, op, prev, cur))
    ensures var r := Repeat(a, op, prev, cur);
      op == '*' ==> Edges(r.nfa) == Edges(a) + {(cur, prev, cur)} + {(cur, EPSILON, r.exit)}
    ensures var r := Repeat(a, op, prev, cur);
      op != '*' ==> Edges(r.nfa) == Edges(a) + {(cur, prev, r.exit)} + {(r.exit, EPSILON, cur)}
  {
    NewStateValid(a);
    var (a1, t) := NewState(a);
    if op == '*' {
      EdgeStep(a1, cur, prev, cur);
      EdgeStep(AddEdge(a1, cur, prev, cur), cur, EPSILON, t);
    } else {
      EdgeStep(a1, cur, prev, t);
      EdgeStep(AddEdge(a1, cur, prev, t), t, EPSILON, cur);
    }
  }

  /**
   * A `*` after a group entered at `g` and left at `exit` adds
   * `exit --ε--> rep`, `exit --ε--> g` and `rep --ε--> g`; a `+` adds the
   * same but `exit --ε--> g`.
   */
  lemma GroupPostfixEdges(a: Nfa, op: char, exit: State, g: State)
    requires Valid(a) && exit in a.states && g in a.states
    ensures Adds(a, GroupPostfix(a, op, exit, g))
    ensures var r := GroupPostfix(a, op, exit, g);
      op == '*' ==>
        Edges(r.nfa) == Edges(a) + {(exit, EPSILON, r.exit)} + {(exit, EPSILON, g)} + {(r.exit, EPSILON, g)}
    ensures var r := GroupPostfix(a, op, exit, g);
      op != '*' ==> Edges(r.nfa) == Edges(a) + {(exit, EPSILON, r.exit)} + {(r.exit, EPSILON, g)}
  {
    NewStateValid(a);
    var (a1, rep) := NewState(a);
    EdgeStep(a1, exit, EPSILON, rep);
    var b := AddEdge(a1, exit, EPSILON, rep);
    if op == '*' {
      EdgeStep(b, exit, EPSILON, g);
      b := AddEdge(b, exit, EPSILON, g);
    }
    EdgeStep(b, rep, EPSILON, g);
  }

  /** The join adds exactly one epsilon edge from every pending branch exit into `cur`. */
  lemma {:induction false} JoinEdges(a: Nfa, pending: seq<State>, cur: State)
    requires forall k :: 0 <= k < |pending| ==> pending[k] in a.trans
    ensures Edges(Join(a, pending, cur)) == Edges(a) + set p | p in pending :: (p, EPSILON, cur)
    decreases |pending|
  {
    if pending != [] {
      var b := AddEdge(a, pending[0], EPSILON, cur);
      AddEdgeEdges(a, pending[0], EPSILON, cur);
      JoinEdges(b, pending[1..], cur);
      assert (set p | p in pending :: (p, EPSILON, cur)) ==
        {(pending[0], EPSILON, cur)} + set p | p in pending[1..] :: (p, EPSILON, cur);
    }
  }

  /** Joining states of a valid automaton into one of its states keeps it valid. */
  lemma {:induction false} JoinValid(a: Nfa, pending: seq<State>, cur: State)
    requires Valid(a) && cur in a.states
    requires forall k :: 0 <= k < |pending| ==> pending[k] in a.states
    ensures Valid(Join(a, pending, cur))
    decreases |pending|
  {
    if pending != [] {
      AddEdgeValid(a, pending[0], EPSILON, cur);
      JoinValid(AddEdge(a, pending[0], EPSILON, cur), pending[1..], cur);
    }
  }

  /**
   * `b` is a valid extension of `a` with at most `n` more states, and every
   * state it adds is entered from an older one.
   */
  ghost predicate Grows(a: Nfa, b: Nfa, n: int) {
    Valid(b) && Extends(a, b) && |b.states| <= |a.states| + n && (Rooted(a) ==> Rooted(b))
  }

  /** Growth composes: the state bounds add up. */
  lemma GrowsTrans(a: Nfa, b: Nfa, c: Nfa, m: int, n: int, k: int)
    requires Grows(a, b, m) && Grows(b, c, n) && m + n <= k
    ensures Grows(a, c, k)
  {
  }

  /** Growth followed by more edges and accept marks over the same states is still growth. */
  lemma GrowsKeep(a: Nfa, b: Nfa, c: Nfa, n: int)
    requires Grows(a, b, n) && Valid(c) && c.start == b.start && c.states == b.states
    requires Edges(b) <= Edges(c) && b.accept <= c.accept
    ensures Grows(a, c, n)
  {
    if Rooted(b) {
      RootedKeep(b, c);
    }
  }

  /**
   * An invocation on a valid automaton leaves a valid extension of it, with
   * at most one new state per character of `alt`, and its exit accepting.
   */
  lemma {:induction false} BuildGrows(alt: string, entry: State, a: Nfa)
    requires Valid(a) && entry in a.states
    ensures var r := Build(alt, entry, a);
      Grows(a, r.nfa, |alt|) && r.exit in r.nfa.accept
    decreases |alt|, 1, 0, 0
  {
    var s := Loop(alt, 0, entry, entry, a);
    LoopGrows(alt, 0, entry, entry, a);
    var j := Join(s.nfa, s.pending, s.cursor);
    var f := MarkAccept(j, s.cursor);
    assert Valid(f) && f.states == s.nfa.states && f.start == s.nfa.start && s.nfa.accept <= f.accept &&
      Edges(s.nfa) <= Edges(f) by {
      JoinValid(s.nfa, s.pending, s.cursor);
      JoinEdges(s.nfa, s.pending, s.cursor);
      MarkAcceptEdges(j, s.cursor);
    }
    GrowsKeep(a, s.nfa, f, |alt|);
  }

  /** The scan from index `i` on: a valid extension with at most one new state per character left. */
  lemma {:induction false} LoopGrows(alt: string, i: nat, entry: State, cur: State, a: Nfa)
    requires i <= |alt| && Valid(a) && entry in a.states && cur in a.states
    ensures var r := Loop(alt, i, entry, cur, a);
      Grows(a, r.nfa, |alt| - i) && r.cursor in r.nfa.states &&
      forall k :: 0 <= k < |r.pending| ==> r.pending[k] in r.nfa.states
    decreases |alt|, 0, |alt| - i, 3
  {
    if i == |alt| {
    } else if alt[i] == '|' {
      AlternationGrows(alt, i, entry, a);
    } else {
      var s := Atom(alt, i, cur, a);
      AtomGrows(alt, i, cur, a);
      LoopGrows(alt, s.next, entry, s.cursor, s.nfa);
    }
  }

  /** A `|` branch: a valid extension with at most one new state per character from the `|` on. */
  lemma {:induction false} AlternationGrows(alt: string, i: nat, entry: State, a: Nfa)
    requires i < |alt| && Valid(a) && entry in a.states
    ensures var r := Alternation(alt, i, entry, a);
      Grows(a, r.nfa, |alt| - i) && r.exit in r.nfa.states
    decreases |alt|, 0, |alt| - i, 0
  {
    EnteredGrows(alt[i + 1..], entry, a);
  }

  /** An entry from `from`, then an invocation on `s` from the new state: at most `|s| + 1` new states. */
  lemma {:induction false} EnteredGrows(s: string, from: State, a: Nfa)
    requires Valid(a) && from in a.states
    ensures var e := Enter(a, from); var r := Build(s, e.exit, e.nfa);
      Grows(a, r.nfa, |s| + 1) && e.exit in r.nfa.states && r.exit in r.nfa.states
    decreases |s|, 2, 0, 0
  {
    var e := Enter(a, from);
    EnterGrows(a, from);
    BuildGrows(s, e.exit, e.nfa);
    GrowsTrans(a, e.nfa, Build(s, e.exit, e.nfa).nfa, 1, |s|, |s| + 1);
  }

  /** One step of the scan: a valid extension with at most one new state per character consumed. */
  lemma {:induction false} AtomGrows(alt: string, i: nat, cur: State, a: Nfa)
    requires i < |alt| && alt[i] != '|' && Valid(a) && cur in a.states
    ensures var r := Atom(alt, i, cur, a);
      Grows(a, r.nfa, r.next - i) && r.cursor in r.nfa.states
    decreases |alt|, 0, |alt| - i, 2
  {
    if alt[i] == '(' {
      GroupGrows(alt, i, cur, a);
    } else if IsPostfix(alt[i]) {
      RepeatGrows(a, alt[i], Before(alt, i), cur);
    } else {
      LiteralGrows(a, alt[i], cur);
    }
  }

  /**
   * A step that adds the fresh state `r.exit` and an edge `e` into it from
   * an older state, removing no edge, grows the automaton by one state.
   */
  lemma AddsGrows(a: Nfa, r: Built, e: (State, char, State))
    requires Valid(a) && Adds(a, r) && Edges(a) <= Edges(r.nfa)
    requires e in Edges(r.nfa) && e.2 == r.exit && e.0 in a.states
    ensures Grows(a, r.nfa, 1) && r.exit in r.nfa.states
  {
    if Rooted(a) {
      RootedNew(a, r.nfa, e);
    }
  }

  /** A literal grows a valid automaton by one state, the new cursor. */
  lemma LiteralGrows(a: Nfa, c: char, cur: State)
    requires Valid(a) && cur in a.states
    ensures var r := Literal(a, c, cur); Grows(a, r.nfa, 1) && r.exit in r.nfa.states
  {
    var r := Literal(a, c, cur);
    assert Adds(a, r) && Edges(r.nfa) == Edges(a) + {(cur, c, r.exit)} by { LiteralEdges(a, c, cur); }
    AddsGrows(a, r, (cur, c, r.exit));
  }

  /** A `*` or `+` grows a valid automaton by one state, the new cursor. */
  lemma RepeatGrows(a: Nfa, op: char, prev: char, cur: State)
    requires Valid(a) && cur in a.states
    ensures var r := Repeat(a, op, prev, cur); Grows(a, r.nfa, 1) && r.exit in r.nfa.states
  {
    var r := Repeat(a, op, prev, cur);
    var e := if op == '*' then (cur, EPSILON, r.exit) else (cur, prev, r.exit);
    assert Adds(a, r) && Edges(a) <= Edges(r.nfa) && e in Edges(r.nfa) by { RepeatEdges(a, op, prev, cur); }
    AddsGrows(a, r, e);
  }

  /** A group with what follows it: a valid extension with at most one new state per character consumed. */
  lemma {:induction false} GroupGrows(alt: string, i: nat, cur: State, a: Nfa)
    requires i < |alt| && Valid(a) && cur in a.states
    ensures var r := Group(alt, i, cur, a);
      Grows(a, r.nfa, r.next - i) && r.cursor in r.nfa.states
    decreases |alt|, 0, |alt| - i, 1
  {
    var j := CloseIndex(alt, i);
    var b := Inside(alt, i, cur, a);
    InsideGrows(alt, i, cur, a);
    GroupEndGrows(alt, j, |a.states|, b);
    var r := GroupEnd(alt, j, |a.states|, b);
    GrowsTrans(a, b.nfa, r.nfa, j - i, r.next - j, r.next - i);
  }

  /** A group's interior: a valid extension holding the group entry, with at most one new state per character scanned. */
  lemma {:induction false} InsideGrows(alt: string, i: nat, cur: State, a: Nfa)
    requires i < |alt| && Valid(a) && cur in a.states
    ensures var r := Inside(alt, i, cur, a);
      Grows(a, r.nfa, CloseIndex(alt, i) - i) && |a.states| in r.nfa.states && r.exit in r.nfa.states
    decreases |alt|, 0, |alt| - i, 0
  {
    InsideStep(alt, i, cur, a);
    EnteredGrows(Slice(alt, i + 1, CloseIndex(alt, i) - 1), cur, a);
  }

  /** What follows a group: nothing, or a repeat state for a `*` or `+`. */
  lemma GroupEndGrows(alt: string, j: nat, g: State, b: Built)
    requires j <= |alt| && Valid(b.nfa) && g in b.nfa.states && b.exit in b.nfa.states
    ensures var r := GroupEnd(alt, j, g, b);
      Grows(b.nfa, r.nfa, r.next - j) && r.cursor in r.nfa.states
  {
    if j < |alt| && IsPostfix(alt[j]) {
      var p := GroupPostfix(b.nfa, alt[j], b.exit, g);
      assert Adds(b.nfa, p) && Edges(b.nfa) <= Edges(p.nfa) && (b.exit, EPSILON, p.exit) in Edges(p.nfa) by {
        GroupPostfixEdges(b.nfa, alt[j], b.exit, g);
      }
      AddsGrows(b.nfa, p, (b.exit, EPSILON, p.exit));
    }
  }

  /**
   * `_build_nfa` on any pattern: a valid automaton with start state `q0`,
   * at most one state per pattern character besides `q0`, and at least one
   * accept state.
   */
  lemma ConstructValid(pattern: string)
    ensures var r := Construct(pattern);
      Valid(r) && Rooted(r) && r.start == 0 && r.accept != {} && 1 <= |r.states| <= |pattern| + 1
  {
    InitialValid();
    BuildGrows(pattern, 0, Initial());
  }

  /** Every state of `_build_nfa`'s automaton is reached from the start state `q0` by a path. */
  lemma ConstructReaches(pattern: string, q: State)
    requires q in Construct(pattern).states
    ensures var r := Construct(pattern); exists w :: IsPath(r, w) && w[0] == r.start && w[|w| - 1] == q
  {
    ConstructValid(pattern);
    RootedReaches(Construct(pattern), q);
  }

  /**
   * A literal, `*` or `+` at index `i` consumes that one character and
   * makes the fresh state `|a.states|` the cursor.
   */
  lemma AtomShape(alt: string, i: nat, cur: State, a: Nfa)
    requires i < |alt| && alt[i] != '|' && alt[i] != '(' && Valid(a) && cur in a.states
    ensures var r := Atom(alt, i, cur, a);
      r.next == i + 1 && r.cursor == |a.states| && Valid(r.nfa) &&
      |r.nfa.states| == |a.states| + 1 && r.nfa.accept == a.accept
  {
    if IsPostfix(alt[i]) {
      RepeatEdges(a, alt[i], Before(alt, i), cur);
    } else {
      LiteralEdges(a, alt[i], cur);
    }
  }

  /**
   * The edges of that step: a literal adds `cur --c--> fresh`; a `*` adds
   * `cur --prev--> cur` and `cur --ε--> fresh`; a `+` adds
   * `cur --prev--> fresh` and `fresh --ε--> cur`, where `prev` is the
   * character before the operator.
   */
  lemma AtomEdges(alt: string, i: nat, cur: State, a: Nfa)
    requires i < |alt| && alt[i] != '|' && alt[i] != '(' && Valid(a) && cur in a.states
    ensures var r := Atom(alt, i, cur, a);
      alt[i] == '*' ==> Edges(r.nfa) == Edges(a) + {(cur, Before(alt, i), cur)} + {(cur, EPSILON, r.cursor)}
    ensures var r := Atom(alt, i, cur, a);
      alt[i] == '+' ==> Edges(r.nfa) == Edges(a) + {(cur, Before(alt, i), r.cursor)} + {(r.cursor, EPSILON, cur)}
    ensures var r := Atom(alt, i, cur, a);
      !IsPostfix(alt[i]) ==> Edges(r.nfa) == Edges(a) + {(cur, alt[i], r.cursor)}
  {
    if IsPostfix(alt[i]) {
      RepeatEdges(a, alt[i], Before(alt, i), cur);
    } else {
      LiteralEdges(a, alt[i], cur);
    }
  }

  /**
   * After a group entered at `g`: a `*` or `+` at `j` is consumed and the
   * fresh repeat state becomes the cursor, with the edges of
   * `GroupPostfixEdges`; anything else leaves the automaton and the cursor
   * to the group's exit and the scan resumes at `j`.
   */
  lemma GroupEndEdges(alt: string, j: nat, g: State, b: Built)
    requires j <= |alt| && Valid(b.nfa) && g in b.nfa.states && b.exit in b.nfa.states
    ensures var r := GroupEnd(alt, j, g, b);
      j < |alt| && IsPostfix(alt[j]) ==>
        r.next == j + 1 && r.cursor == |b.nfa.states| &&
        r.nfa.states == b.nfa.states + {r.cursor} && r.nfa.accept == b.nfa.accept
    ensures var r := GroupEnd(alt, j, g, b);
      j < |alt| && alt[j] == '*' ==>
        Edges(r.nfa) == Edges(b.nfa) + {(b.exit, EPSILON, r.cursor)} + {(b.exit, EPSILON, g)} + {(r.cursor, EPSILON, g)}
    ensures var r := GroupEnd(alt, j, g, b);
      j < |alt| && alt[j] == '+' ==>
        Edges(r.nfa) == Edges(b.nfa) + {(b.exit, EPSILON, r.cursor)} + {(r.cursor, EPSILON, g)}
    ensures var r := GroupEnd(alt, j, g, b);
      !(j < |alt| && IsPostfix(alt[j])) ==> r.next == j && r.cursor == b.exit && r.nfa == b.nfa
  {
    if j < |alt| && IsPostfix(alt[j]) {
      GroupPostfixEdges(b.nfa, alt[j], b.exit, g);
    }
  }

  /**
   * A group at `i` is entered from the cursor on epsilon into the fresh
   * state `|a.states|`, and the scan resumes where the depth scan stopped or
   * one past it (a postfix operator).
   */
  lemma GroupEntered(alt: string, i: nat, cur: State, a: Nfa)
    requires i < |alt| && Valid(a) && cur in a.states
    ensures var r := Group(alt, i, cur, a);
      (cur, EPSILON, |a.states|) in Edges(r.nfa) &&
      (r.next == CloseIndex(alt, i) || r.next == CloseIndex(alt, i) + 1)
  {
    InsideStep(alt, i, cur, a);
    var e := Enter(a, cur);
    EnterEdges(a, cur);
    var b := Inside(alt, i, cur, a);
    BuildGrows(Slice(alt, i + 1, CloseIndex(alt, i) - 1), e.exit, e.nfa);
    InsideGrows(alt, i, cur, a);
    GroupEndGrows(alt, CloseIndex(alt, i), |a.states|, b);
  }

  /**
   * A `|` leaves from the invocation's entry state, not from the cursor: an
   * epsilon edge from `entry` into the fresh branch state `|a.states|`.
   */
  lemma AlternationEntered(alt: string, i: nat, entry: State, a: Nfa)
    requires i < |alt| && Valid(a) && entry in a.states
    ensures (entry, EPSILON, |a.states|) in Edges(Alternation(alt, i, entry, a).nfa)
  {
    var e := Enter(a, entry);
    EnterEdges(a, entry);
    BuildGrows(alt[i + 1..], e.exit, e.nfa);
  }

  /**
   * An invocation returns the scan's final cursor, marked accepting, and
   * every branch exit the scan recorded has an epsilon edge into it.
   */
  lemma BuildJoins(alt: string, entry: State, a: Nfa)
    requires Valid(a) && entry in a.states
    ensures var s := Loop(alt, 0, entry, entry, a); var r := Build(alt, entry, a);
      r.exit == s.cursor && r.exit in r.nfa.accept && r.nfa.accept == s.nfa.accept + {r.exit} &&
      forall k :: 0 <= k < |s.pending| ==> (s.pending[k], EPSILON, r.exit) in Edges(r.nfa)
  {
    var s := Loop(alt, 0, entry, entry, a);
    JoinEdges(s.nfa, s.pending, s.cursor);
    var j := Join(s.nfa, s.pending, s.cursor);
    MarkAcceptEdges(j, s.cursor);
  }

  /** The chain of literal edges `c --alt[i]--> c+1 --alt[i+1]--> c+2 ...` over `alt[i..]`. */
  function Chain(alt: string, i: nat, c: State): set<(State, char, State)>
    requires i <= |alt|
    decreases |alt| - i
  {
    if i == |alt| then {} else {(c, alt[i], c + 1)} + Chain(alt, i + 1, c + 1)
  }

  /** The chain is one edge `c+k-i --alt[k]--> c+k-i+1` for each index `k` from `i` on. */
  lemma {:induction false} ChainIs(alt: string, i: nat, c: State)
    requires i <= |alt|
    ensures Chain(alt, i, c) == set k | i <= k < |alt| :: (c + k - i, alt[k], c + k - i + 1)
    decreases |alt| - i
  {
    if i < |alt| {
      ChainIs(alt, i + 1, c + 1);
      var rest := set k | i + 1 <= k < |alt| :: (c + 1 + k - (i + 1), alt[k], c + 1 + k - (i + 1) + 1);
      var all := set k | i <= k < |alt| :: (c + k - i, alt[k], c + k - i + 1);
      assert all == {(c, alt[i], c + 1)} + rest by {
        forall e | e in all ensures e in {(c, alt[i], c + 1)} + rest {
          var k :| i <= k < |alt| && e == (c + k - i, alt[k], c + k - i + 1);
          if k > i {
            assert e == (c + 1 + k - (i + 1), alt[k], c + 1 + k - (i + 1) + 1);
          }
        }
      }
    }
  }

  /** No operator character from index `i` on. */
  predicate PlainFrom(alt: string, i: nat) {
    forall k :: i <= k < |alt| ==> !IsOperator(alt[k])
  }

  /**
   * Scanning operator-free characters from a cursor that is the newest
   * state: one fresh state per character, the last of them the cursor, and
   * no branch to join.
   */
  lemma {:induction false} PlainLoop(alt: string, i: nat, entry: State, cur: State, a: Nfa)
    requires i <= |alt| && PlainFrom(alt, i)
    requires Valid(a) && entry in a.states && cur + 1 == |a.states|
    ensures Loop(alt, i, entry, cur, a).pending == []
    ensures Loop(alt, i, entry, cur, a).cursor == cur + |alt| - i
    ensures |Loop(alt, i, entry, cur, a).nfa.states| == cur + |alt| - i + 1
    ensures Valid(Loop(alt, i, entry, cur, a).nfa) && Loop(alt, i, entry, cur, a).nfa.accept == a.accept
    decreases |alt| - i
  {
    if i < |alt| {
      assert cur in a.states by { ValidStatesRange(a, cur); }
      var s := Atom(alt, i, cur, a);
      AtomShape(alt, i, cur, a);
      LoopStep(alt, i, entry, cur, a);
      PlainLoop(alt, s.next, entry, s.cursor, s.nfa);
    }
  }

  /** The edges that scan adds: the chain of the characters from the cursor on. */
  lemma {:induction false} PlainLoopEdges(alt: string, i: nat, entry: State, cur: State, a: Nfa)
    requires i <= |alt| && PlainFrom(alt, i)
    requires Valid(a) && entry in a.states && cur + 1 == |a.states|
    ensures Edges(Loop(alt, i, entry, cur, a).nfa) == Edges(a) + Chain(alt, i, cur)
    decreases |alt| - i
  {
    if i < |alt| {
      var e: set<(State, char, State)> := Edges(a);
      var c: set<(State, char, State)> := {(cur, alt[i], cur + 1)};
      var rest := Chain(alt, i + 1, cur + 1);
      assert e + c + rest == e + (c + rest);
      assert cur in a.states by { ValidStatesRange(a, cur); }
      var l := Literal(a, alt[i], cur);
      assert Atom(alt, i, cur, a) == Step(l.nfa, i + 1, l.exit);
      assert Valid(l.nfa) && l.exit == cur + 1 && |l.nfa.states| == cur + 2 &&
        Edges(l.nfa) == Edges(a) + {(cur, alt[i], cur + 1)} by { LiteralEdges(a, alt[i], cur); }
      LoopStep(alt, i, entry, cur, a);
      PlainLoopEdges(alt, i + 1, entry, l.exit, l.nfa);
    }
  }

  /**
   * The scan of a pattern without operator characters of length `n` from
   * `q0`: the states `q0 .. qn`, the chain of its characters, the cursor
   * `qn` and no branch to join.
   */
  lemma PlainScan(pattern: string)
    requires PlainFrom(pattern, 0)
    ensures var s := Loop(pattern, 0, 0, 0, Initial());
      s.pending == [] && s.cursor == |pattern| && s.nfa.states == Upto(|pattern| + 1) &&
      s.nfa.accept == {} && Edges(s.nfa) == set k | 0 <= k < |pattern| :: (k, pattern[k], k + 1)
  {
    InitialValid();
    PlainLoop(pattern, 0, 0, 0, Initial());
    PlainLoopEdges(pattern, 0, 0, 0, Initial());
    ChainIs(pattern, 0, 0);
  }

  /**
   * A pattern without operator characters of length `n` becomes the chain
   * `q0 --p[0]--> q1 --p[1]--> ... --p[n-1]--> qn` with `n + 1` states,
   * and `qn` is its only accept state.
   */
  lemma LiteralChain(pattern: string)
    requires PlainFrom(pattern, 0)
    ensures var r := Construct(pattern);
      r.states == Upto(|pattern| + 1) && r.accept == {|pattern|} &&
      Edges(r) == set k | 0 <= k < |pattern| :: (k, pattern[k], k + 1)
  {
    var s := Loop(pattern, 0, 0, 0, Initial());
    PlainScan(pattern);
    assert Join(s.nfa, s.pending, s.cursor) == s.nfa;
    MarkAcceptEdges(s.nfa, s.cursor);
  }

  /** An invocation on a one-character literal from `q2` with three states: exit `q3`, the only accept mark. */
  lemma OneLiteralBuild(y: char, a: Nfa)
    requires !IsOperator(y) && |a.states| == 3 && 2 in a.trans && a.accept == {}
    ensures var b := Build([y], 2, a); b.exit == 3 && b.nfa.accept == {3}
  {
    var t := [y];
    var l := Literal(a, y, 2);
    assert Atom(t, 0, 2, a) == Step(l.nfa, 1, 3);
    LoopStep(t, 0, 2, 2, a);
  }

  /** The scan of `x|y` from index 1 with cursor `q1`: the branch `q2 .. q3` is built and `q3` recorded. */
  lemma AlternationTail(p: string, a: Nfa)
    requires |p| == 3 && p[1] == '|' && !IsOperator(p[2])
    requires a.states == {0, 1} && 0 in a.trans && 1 in a.trans && a.accept == {}
    ensures var s := Loop(p, 1, 0, 1, a); s.cursor == 1 && s.pending == [3] && s.nfa.accept == {3}
  {
    var e := Enter(a, 0);
    assert |e.nfa.states| == 3 by { assert 2 !in a.states; }
    assert p[2..] == [p[2]];
    OneLiteralBuild(p[2], e.nfa);
  }

  /** `x|y` built from the lone state `q0`: both exits are marked accepting. */
  lemma AlternationSteps(x: char, y: char, a0: Nfa)
    requires !IsOperator(x) && !IsOperator(y)
    requires a0.states == {0} && 0 in a0.trans && a0.accept == {}
    ensures Build([x, '|', y], 0, a0).nfa.accept == {1, 3}
  {
    var p := [x, '|', y];
    var l := Literal(a0, x, 0);
    assert Atom(p, 0, 0, a0) == Step(l.nfa, 1, 1);
    LoopStep(p, 0, 0, 0, a0);
    AlternationTail(p, l.nfa);
  }

  /**
   * Every invocation marks its own exit accepting, so for two literals
   * `x|y` the accept set is `{q1, q3}`: the exit `q1` of the first branch
   * and the exit `q3` of the branch after the `|`, which is joined into
   * `q1` on epsilon.
   */
  lemma AlternationAcceptsBoth(x: char, y: char)
    requires !IsOperator(x) && !IsOperator(y)
    ensures Construct([x, '|', y]).accept == {1, 3}
  {
    AlternationSteps(x, y, Initial());
  }
}
