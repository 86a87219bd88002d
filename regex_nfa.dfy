/**
 * The `RegexNFA` object: a pattern, the set of states, the transition table,
 * the start state `q0` and the accept set, filled in place by the
 * constructor. Each method is proved to leave the object holding exactly
 * the automaton value that the pure construction computes.
 */
module RegexNfaObject {
  import opened Patterns
  import opened Automata
  import opened Construction
  import opened Properties

  class RegexNfa {
    const pattern: string
    const startState: State := 0
    var states: set<State>
    var transitions: map<State, Row>
    var acceptStates: set<State>

    /** The automaton the fields currently hold. */
    function Model(): Nfa
      reads this
    {
      Nfa(startState, states, transitions, acceptStates)
    }

    /**
     * `__init__`: store the pattern and build its automaton, which is valid,
     * enters every state but `q0` from an older one, has at most one state
     * per pattern character besides `q0`, and accepts somewhere.
     */
    constructor (pattern: string)
      ensures this.pattern == pattern
      ensures Model() == Construct(pattern)
      ensures Valid(Model()) && Rooted(Model()) && acceptStates != {} && |states| <= |pattern| + 1
    {
      this.pattern := pattern;
      states := {};
      transitions := map[];
      acceptStates := {};
      new;
      BuildNfa();
      ConstructValid(pattern);
    }

    /** `_build_nfa`: reset to the lone start state, then one invocation on the whole pattern. */
    method BuildNfa()
      modifies this
      ensures Model() == Construct(pattern)
    {
      states := {startState};
      transitions := map[startState := map[]];
      acceptStates := {};
      var exit := ProcessAlternative(pattern, startState);
    }

    /** `create_state`: a state named after the current number of states, with an empty table. */
    method CreateState() returns (q: State)
      modifies this
      ensures (Model(), q) == NewState(old(Model()))
    {
      q := |states|;
      states := states + {q};
      transitions := transitions[q := map[]];
    }

    /** The idiom of the source: create the destination set of `p` on `c` if missing, then add `q`. */
    method AddTransition(p: State, c: char, q: State)
      requires p in transitions
      modifies this
      ensures Model() == AddEdge(old(Model()), p, c, q)
    {
      ghost var row := transitions[p];
      if c !in transitions[p] {
        transitions := transitions[p := transitions[p][c := {}]];
      }
      assert transitions[p][c := transitions[p][c] + {q}] ==
        row[c := (if c in row then row[c] else {}) + {q}];
      transitions := transitions[p := transitions[p][c := transitions[p][c] + {q}]];
    }

    /**
     * `process_alternative`: scan `alt` from `start`, then join the branch
     * exits into the cursor, mark the cursor accepting and return it.
     */
    method ProcessAlternative(alt: string, start: State) returns (exit: State)
      requires start in transitions
      modifies this
      ensures Built(Model(), exit) == Build(alt, start, old(Model()))
      decreases |alt|, 2, 0
    {
      var cur, altStates := Scan(alt, start);
      JoinBranches(altStates, cur);
      acceptStates := acceptStates + {cur};
      exit := cur;
    }

    /**
     * The `while` loop of `process_alternative`: reads `alt` left to right
     * from `start`, building as it goes; a `|` hands the rest to a recursive
     * invocation from a fresh branch state, records its exit and stops the
     * scan. Returns the final cursor and the recorded branch exits.
     */
    method Scan(alt: string, start: State) returns (cur: State, altStates: seq<State>)
      requires start in transitions
      modifies this
      ensures Scanned(Model(), cur, altStates) == Loop(alt, 0, start, start, old(Model()))
      decreases |alt|, 1, 0
    {
      ghost var goal := Loop(alt, 0, start, start, Model());
      cur := start;
      altStates := [];
      var i := 0;
      while i < |alt|
        invariant ScanReady(alt, i, start, cur, Model())
        invariant altStates == []
        invariant Loop(alt, i, start, cur, Model()) == goal
        decreases |alt| - i
      {
        if alt[i] == '|' {
          var e := ReadAlternation(alt, i, start);
          assert altStates + [e] == [e];
          altStates := altStates + [e];
          break;
        }
        i, cur := ReadAtom(alt, i, cur);
      }
    }

    /**
     * The `|` branch of the scan: a fresh branch state entered from `start`
     * on epsilon, and the rest of `alt` built from it by a recursive
     * invocation, whose exit is returned.
     */
    method ReadAlternation(alt: string, i: nat, start: State) returns (e: State)
      requires i < |alt| && start in transitions
      modifies this
      ensures Built(Model(), e) == Alternation(alt, i, start, old(Model()))
      decreases |alt|, 0, 0
    {
      var br := EnterNew(start);
      e := ProcessAlternative(alt[i + 1..], br);
    }

    /**
     * The other branches of the scan at index `i`: a group, a `*` or `+`
     * repeating the character before it, or a literal. Returns the index
     * the scan resumes at and the new cursor.
     */
    method ReadAtom(alt: string, i: nat, cur: State) returns (next: nat, exit: State)
      requires i < |alt| && alt[i] != '|' && cur in transitions
      modifies this
      ensures Step(Model(), next, exit) == Atom(alt, i, cur, old(Model()))
      decreases |alt|, 0, 2
    {
      var c := alt[i];
      if c == '(' {
        next, exit := ReadGroup(alt, i, cur);
      } else if c == '*' || c == '+' {
        var prev := if i == 0 then alt[|alt| - 1] else alt[i - 1];
        exit := ReadRepeat(c, prev, cur);
        next := i + 1;
      } else {
        exit := ReadLiteral(c, cur);
        next := i + 1;
      }
    }

    /**
     * The `(` branch of the scan: find where the group ends, enter it from
     * the cursor on epsilon, build its interior by a recursive invocation,
     * then apply a `*` or `+` that follows the group. Returns the index the
     * scan resumes at and the new cursor.
     */
    method ReadGroup(alt: string, i: nat, cur: State) returns (next: nat, exit: State)
      requires i < |alt| && alt[i] == '(' && cur in transitions
      modifies this
      ensures Step(Model(), next, exit) == Group(alt, i, cur, old(Model()))
      decreases |alt|, 0, 1
    {
      var j := MatchParen(alt, i);
      var g, inner := ReadInside(alt, i, j, cur);
      next, exit := ReadGroupEnd(alt, j, g, inner);
    }

    /**
     * The interior of the `(` branch, given the index `j` where the depth
     * scan stopped: a fresh group entry `g` reached from the cursor on
     * epsilon, and the subpattern built from it by a recursive invocation.
     */
    method ReadInside(alt: string, i: nat, j: nat, cur: State) returns (g: State, exit: State)
      requires i < |alt| && j == CloseIndex(alt, i) && cur in transitions
      modifies this
      ensures g == |old(states)|
      ensures Built(Model(), exit) == Inside(alt, i, cur, old(Model()))
      decreases |alt|, 0, 0
    {
      g := EnterNew(cur);
      exit := ProcessAlternative(Slice(alt, i + 1, j - 1), g);
    }

    /**
     * The end of the `(` branch, at the index `j` where the depth scan
     * stopped: a `*` or `+` there repeats the group entered at `g` and left
     * at `exit`, and the scan resumes after it; otherwise it resumes at `j`.
     */
    method ReadGroupEnd(alt: string, j: nat, g: State, exit: State) returns (next: nat, cur: State)
      requires j <= |alt| && g in transitions && exit in transitions
      modifies this
      ensures Step(Model(), next, cur) == GroupEnd(alt, j, g, Built(old(Model()), exit))
    {
      next := j;
      cur := exit;
      if next < |alt| && (alt[next] == '*' || alt[next] == '+') {
        cur := RepeatGroup(alt[next], exit, g);
        next := next + 1;
      }
    }

    /** A fresh state entered from `from` on epsilon, as a group and a `|` branch begin. */
    method EnterNew(from: State) returns (q: State)
      requires from in transitions
      modifies this
      ensures Built(Model(), q) == Enter(old(Model()), from)
    {
      q := CreateState();
      AddTransition(from, EPSILON, q);
    }

    /** A `*` or `+` after a group entered at `g` and left at `exit`: a fresh repeat state and its epsilon edges. */
    method RepeatGroup(op: char, exit: State, g: State) returns (rep: State)
      requires exit in transitions && g in transitions && IsPostfix(op)
      modifies this
      ensures Built(Model(), rep) == GroupPostfix(old(Model()), op, exit, g)
    {
      rep := CreateState();
      if op == '*' {
        AddTransition(exit, EPSILON, rep);
        AddTransition(exit, EPSILON, g);
      } else {
        AddTransition(exit, EPSILON, rep);
      }
      AddTransition(rep, EPSILON, g);
    }

    /** The `*` and `+` branches of the scan, repeating the character `prev`. */
    method ReadRepeat(op: char, prev: char, cur: State) returns (t: State)
      requires cur in transitions && IsPostfix(op)
      modifies this
      ensures Built(Model(), t) == Repeat(old(Model()), op, prev, cur)
    {
      t := CreateState();
      if op == '*' {
        AddTransition(cur, prev, cur);
        AddTransition(cur, EPSILON, t);
      } else {
        AddTransition(cur, prev, t);
        AddTransition(t, EPSILON, cur);
      }
    }

    /** The branch for any other character: a fresh state reached from the cursor on it. */
    method ReadLiteral(c: char, cur: State) returns (t: State)
      requires cur in transitions
      modifies this
      ensures Built(Model(), t) == Literal(old(Model()), c, cur)
    {
      t := CreateState();
      AddTransition(cur, c, t);
    }

    /** The loop over `alt_states`: an epsilon edge from every branch exit into `cur`. */
    method JoinBranches(pending: seq<State>, cur: State)
      requires forall k :: 0 <= k < |pending| ==> pending[k] in transitions
      modifies this
      ensures Model() == Join(old(Model()), pending, cur)
    {
      for k := 0 to |pending|
        invariant forall m :: 0 <= m < |pending| ==> pending[m] in transitions
        invariant Join(Model(), pending[k..], cur) == Join(old(Model()), pending, cur)
      {
        AddTransition(pending[k], EPSILON, cur);
      }
    }
  }
}
