/**
 * The automaton the constructor builds, as a value: counter-named states, a
 * transition table from (state, symbol) to a set of destinations, the start
 * state and the accept set, with the three ways the construction changes it
 * (a fresh state, an added edge, an accept mark).
 */
module Automata {

  /** State `qk` of the source is the natural number `k`. */
  type State = nat

  /**
   * The label of epsilon transitions. Labels are single characters, and this
   * tag shares the key space of the pattern's literals.
   */
  const EPSILON: char := 'ε'

  /** The outgoing table of one state, from a label to its destinations. */
  type Row = map<char, set<State>>

  datatype Nfa = Nfa(start: State, states: set<State>, trans: map<State, Row>, accept: set<State>)

  /** The states `q0 .. q(n-1)`. */
  function Upto(n: nat): (r: set<State>)
    ensures forall k: int :: k in r <==> 0 <= k < n
    ensures |r| == n
  {
    if n == 0 then {} else Upto(n - 1) + {n - 1}
  }

  /**
   * The invariant of every automaton the construction builds: the states
   * are exactly `q0 .. q(n-1)`, the start state is one of them, every state
   * and only those has an outgoing table, every destination and every accept
   * state is a state.
   */
  ghost predicate Valid(a: Nfa) {
    a.states == Upto(|a.states|) &&
    a.start in a.states &&
    a.trans.Keys == a.states &&
    a.accept <= a.states &&
    forall p, s :: p in a.trans && s in a.trans[p] ==> a.trans[p][s] <= a.states
  }

  /** A number below the count of states of a valid automaton is a state. */
  lemma ValidStatesRange(a: Nfa, k: nat)
    requires Valid(a) && k < |a.states|
    ensures k in a.states
  {
  }

  /** The next state number of a valid automaton is not yet a state. */
  lemma ValidFresh(a: Nfa)
    requires Valid(a)
    ensures |a.states| !in a.states
  {
  }

  /** The transition relation as a set of labelled edges. */
  ghost function Edges(a: Nfa): set<(State, char, State)> {
    set p, s, q | p in a.trans && s in a.trans[p] && q in a.trans[p][s] :: (p, s, q)
  }

  /** `b` is `a` with possibly more states, edges and accept marks: nothing is removed. */
  ghost predicate Extends(a: Nfa, b: Nfa) {
    a.start == b.start && a.states <= b.states && Edges(a) <= Edges(b) && a.accept <= b.accept
  }

  /** State `q` has an incoming edge from a state created before it. */
  ghost predicate HasParent(a: Nfa, q: State) {
    exists e :: e in Edges(a) && e.2 == q && e.0 < q
  }

  /**
   * Every state but `q0` is entered by an edge from an older state: the
   * construction never creates a state without an edge into it.
   */
  ghost predicate Rooted(a: Nfa) {
    forall q :: q in a.states && 0 < q ==> HasParent(a, q)
  }

  /** More edges over the same states keep every state entered from an older one. */
  lemma RootedKeep(a: Nfa, b: Nfa)
    requires Rooted(a) && b.states == a.states && Edges(a) <= Edges(b)
    ensures Rooted(b)
  {
    forall q | q in b.states && 0 < q ensures HasParent(b, q) {
      var e :| e in Edges(a) && e.2 == q && e.0 < q;
      assert e in Edges(b);
    }
  }

  /** One new state `|a.states|`, entered by the edge `e` from an older state, keeps the automaton rooted. */
  lemma RootedNew(a: Nfa, b: Nfa, e: (State, char, State))
    requires Valid(a) && Rooted(a) && b.states == a.states + {|a.states|} && Edges(a) <= Edges(b)
    requires e in Edges(b) && e.2 == |a.states| && e.0 in a.states
    ensures Rooted(b)
  {
    forall q | q in b.states && 0 < q ensures HasParent(b, q) {
      if q == |a.states| {
        assert e.0 < q;
      } else {
        var d :| d in Edges(a) && d.2 == q && d.0 < q;
        assert d in Edges(b);
      }
    }
  }

  /** Some edge of `a` leads from `p` to `q`. */
  ghost predicate Linked(a: Nfa, p: State, q: State) {
    exists s :: (p, s, q) in Edges(a)
  }

  /** `w` is a path of `a`: consecutive states of `w` are joined by an edge. */
  ghost predicate IsPath(a: Nfa, w: seq<State>) {
    |w| > 0 && forall k :: 0 <= k < |w| - 1 ==> Linked(a, w[k], w[k + 1])
  }

  /** A path ending where the edge `e` starts, followed by the end of `e`, is a path. */
  lemma PathExtend(a: Nfa, w: seq<State>, e: (State, char, State))
    requires IsPath(a, w) && e in Edges(a) && w[|w| - 1] == e.0
    ensures IsPath(a, w + [e.2]) && (w + [e.2])[|w|] == e.2
  {
    var v := w + [e.2];
    forall k | 0 <= k < |v| - 1 ensures Linked(a, v[k], v[k + 1]) {
      if k < |w| - 1 {
        assert v[k] == w[k] && v[k + 1] == w[k + 1];
      } else {
        assert (v[k], e.1, v[k + 1]) == e;
      }
    }
  }

  /** In a valid rooted automaton every state is reached from `q0` by a path. */
  lemma {:induction false} RootedReaches(a: Nfa, q: State)
    requires Valid(a) && Rooted(a) && q in a.states
    ensures exists w :: IsPath(a, w) && w[0] == 0 && w[|w| - 1] == q
    decreases q
  {
    if q == 0 {
      assert IsPath(a, [0]);
    } else {
      assert HasParent(a, q);
      var e :| e in Edges(a) && e.2 == q && e.0 < q;
      assert e.0 in a.states;
      RootedReaches(a, e.0);
      var w :| IsPath(a, w) && w[0] == 0 && w[|w| - 1] == e.0;
      PathExtend(a, w, e);
      assert (w + [q])[0] == 0;
    }
  }

  /** The automaton of `_build_nfa` before any pattern character is read: `q0` alone, no edges. */
  function Initial(): (r: Nfa)
    ensures r.start == 0 && r.states == {0} && r.trans == map[0 := map[]] && r.accept == {}
  {
    Nfa(0, {0}, map[0 := map[]], {})
  }

  /** The initial automaton is valid and has no edge. */
  lemma InitialValid()
    ensures Valid(Initial()) && Rooted(Initial()) && Edges(Initial()) == {}
  {
    assert Upto(1) == {0};
  }

  /**
   * `create_state`: the next state is named after the number of states and
   * gets an empty table; the start state and the accept set stay.
   */
  function NewState(a: Nfa): (r: (Nfa, State))
    ensures r.1 == |a.states|
    ensures r.0.start == a.start && r.0.accept == a.accept && r.0.states == a.states + {r.1}
    ensures r.0.trans.Keys == a.trans.Keys + {r.1} && r.0.trans[r.1] == map[]
  {
    var q := |a.states|;
    var b := Nfa(a.start, a.states + {q}, a.trans[q := map[]], a.accept);
    assert b.trans.Keys == a.trans.Keys + {q};
    (b, q)
  }

  /**
   * On a valid automaton the created state is new, it is the only state
   * added, and no edge appears.
   */
  lemma NewStateValid(a: Nfa)
    requires Valid(a)
    ensures var (b, q) := NewState(a);
      q !in a.states && |b.states| == |a.states| + 1 && Valid(b) && Edges(b) == Edges(a)
  {
    var (b, q) := NewState(a);
    assert q !in a.states;
    assert b.states == Upto(q + 1);
    forall e | e in Edges(b) ensures e in Edges(a) {
      assert e.0 != q;
    }
  }

  /**
   * The idiom "create the destination set if missing, then add": `q`
   * becomes a destination of `p` on `s`; the states, the keys of the table
   * and the accept set stay as they are.
   */
  function AddEdge(a: Nfa, p: State, s: char, q: State): (r: Nfa)
    requires p in a.trans
    ensures r.start == a.start && r.states == a.states && r.accept == a.accept
    ensures r.trans.Keys == a.trans.Keys
    ensures s in r.trans[p] && q in r.trans[p][s]
  {
    var row := a.trans[p];
    var dest := if s in row then row[s] else {};
    a.(trans := a.trans[p := row[s := dest + {q}]])
  }

  /** Adding an edge adds exactly that edge to the transition relation and removes none. */
  lemma AddEdgeEdges(a: Nfa, p: State, s: char, q: State)
    requires p in a.trans
    ensures Edges(AddEdge(a, p, s, q)) == Edges(a) + {(p, s, q)}
  {
    var r := AddEdge(a, p, s, q);
    assert (p, s, q) in Edges(r);
    forall e | e in Edges(a) ensures e in Edges(r) {
      assert e.0 in r.trans && e.1 in r.trans[e.0] && e.2 in r.trans[e.0][e.1];
    }
    forall e | e in Edges(r) ensures e in Edges(a) || e == (p, s, q) {
      if e != (p, s, q) {
        assert e.0 in a.trans && e.1 in a.trans[e.0] && e.2 in a.trans[e.0][e.1];
      }
    }
  }

  /** Adding an edge that is already there changes nothing: destinations form a set. */
  lemma AddEdgeIdempotent(a: Nfa, p: State, s: char, q: State)
    requires p in a.trans
    ensures AddEdge(AddEdge(a, p, s, q), p, s, q) == AddEdge(a, p, s, q)
  {
    var b := AddEdge(a, p, s, q);
    assert b.trans[p][s] + {q} == b.trans[p][s];
    assert b.trans[p][s := b.trans[p][s] + {q}] == b.trans[p];
  }

  /** An edge between two states of a valid automaton keeps it valid. */
  lemma AddEdgeValid(a: Nfa, p: State, s: char, q: State)
    requires Valid(a) && p in a.states && q in a.states
    ensures Valid(AddEdge(a, p, s, q))
  {
    var r := AddEdge(a, p, s, q);
    forall x, t | x in r.trans && t in r.trans[x] ensures r.trans[x][t] <= r.states {
      if x != p || t != s {
        assert r.trans[x][t] == a.trans[x][t];
      }
    }
  }

  /** `accept_states.add`: `q` becomes accepting; everything else stays. */
  function MarkAccept(a: Nfa, q: State): (r: Nfa)
    ensures r.accept == a.accept + {q}
    ensures r.start == a.start && r.states == a.states && r.trans == a.trans
  {
    a.(accept := a.accept + {q})
  }

  /** An accept mark adds no edge and removes none. */
  lemma MarkAcceptEdges(a: Nfa, q: State)
    ensures Edges(MarkAccept(a, q)) == Edges(a)
  {
  }
}
