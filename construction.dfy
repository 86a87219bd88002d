/**
 * The construction engine of `process_alternative` as pure functions on
 * automaton values: `Loop` is its left-to-right scan from index `i` with a
 * cursor, `Build` is one invocation (scan, branch reconvergence, accept
 * mark), and `Construct` is `_build_nfa` on a whole pattern. The class in
 * regex_nfa.dfy is proved to compute exactly these values; the lemmas here
 * state what the construction guarantees. Every string is accepted, as in
 * the source: an unmatched `(` swallows the rest of its alternative, an
 * unmatched `)` is a literal, and a `*` or `+` at index 0 repeats the last
 * character (a negative index wraps).
 */
module Construction {
  import opened Patterns
  import opened Automata

  /** The automaton after an invocation, with the state it returns. */
  datatype Built = Built(nfa: Nfa, exit: State)

  /** The automaton when the scan ends, with the cursor and the branch exits still to join. */
  datatype Scanned = Scanned(nfa: Nfa, cursor: State, pending: seq<State>)

  /** The result of one step of the scan: the automaton, the index to resume at, the new cursor. */
  datatype Step = Step(nfa: Nfa, next: nat, cursor: State)

  /** The character before index `i`, read as `alt[i-1]` reads it: index -1 is the last one. */
  function Before(alt: string, i: nat): (r: char)
    requires i < |alt|
    ensures r == alt[(i + |alt| - 1) % |alt|]
  {
    if i == 0 then alt[|alt| - 1] else alt[i - 1]
  }

  /** The slice `s[lo:hi]` for bounds within `s`: the characters from `lo` up to `hi`, empty when `hi < lo`. */
  function Slice(s: string, lo: nat, hi: nat): (r: string)
    requires lo <= |s| && hi <= |s|
    ensures |r| == if lo <= hi then hi - lo else 0
    ensures forall k :: 0 <= k < |r| ==> r[k] == s[lo + k]
  {
    if lo <= hi then s[lo..hi] else []
  }

  /** Branch reconvergence: every pending branch exit gets an epsilon edge into `cur`. */
  function Join(a: Nfa, pending: seq<State>, cur: State): (r: Nfa)
    requires forall k :: 0 <= k < |pending| ==> pending[k] in a.trans
    ensures r.start == a.start && r.states == a.states && r.accept == a.accept
    ensures r.trans.Keys == a.trans.Keys
    decreases |pending|
  {
    if pending == [] then a
    else Join(AddEdge(a, pending[0], EPSILON, cur), pending[1..], cur)
  }

  /**
   * One invocation on `alt` from the entry state `entry`: scan, join the
   * branch exits into the final cursor, mark that cursor accepting and
   * return it. (Every invocation marks its own exit, so the accept set of a
   * pattern with groups or `|` holds more than one state.)
   */
  function Build(alt: string, entry: State, a: Nfa): (r: Built)
    requires entry in a.trans
    ensures a.trans.Keys <= r.nfa.trans.Keys && r.exit in r.nfa.trans
    decreases |alt|, 1, 0, 0
  {
    var s := Loop(alt, 0, entry, entry, a);
    Built(MarkAccept(Join(s.nfa, s.pending, s.cursor), s.cursor), s.cursor)
  }

  /** What the scan needs at index `i`: its entry state and its cursor have tables. */
  predicate ScanReady(alt: string, i: nat, entry: State, cur: State, a: Nfa) {
    i <= |alt| && entry in a.trans && cur in a.trans
  }

  /**
   * The scan from index `i` with cursor `cur`: it stops at the end of `alt`
   * or at a `|`, whose branch is built and recorded; any other character is
   * one step.
   */
  function Loop(alt: string, i: nat, entry: State, cur: State, a: Nfa): (r: Scanned)
    requires ScanReady(alt, i, entry, cur, a)
    ensures a.trans.Keys <= r.nfa.trans.Keys && r.cursor in r.nfa.trans
    ensures forall k :: 0 <= k < |r.pending| ==> r.pending[k] in r.nfa.trans
    decreases |alt|, 0, |alt| - i, 3
  {
    if i == |alt| then Scanned(a, cur, [])
    else if alt[i] == '|' then
      var b := Alternation(alt, i, entry, a);
      Scanned(b.nfa, cur, [b.exit])
    else
      var s := Atom(alt, i, cur, a);
      Loop(alt, s.next, entry, s.cursor, s.nfa)
  }

  /** The scan unfolded at a character other than `|`: one step, then the scan from where it resumes. */
  lemma LoopStep(alt: string, i: nat, entry: State, cur: State, a: Nfa)
    requires ScanReady(alt, i, entry, cur, a) && i < |alt| && alt[i] != '|'
    ensures var s := Atom(alt, i, cur, a);
      Loop(alt, i, entry, cur, a) == Loop(alt, s.next, entry, s.cursor, s.nfa)
  {
  }

  /**
   * A `|` at index `i`: a fresh branch state entered from `entry` on
   * epsilon, and the rest of `alt` built from it.
   */
  function Alternation(alt: string, i: nat, entry: State, a: Nfa): (r: Built)
    requires i < |alt| && entry in a.trans
    ensures a.trans.Keys <= r.nfa.trans.Keys && r.exit in r.nfa.trans
    decreases |alt|, 0, |alt| - i, 0
  {
    var e := Enter(a, entry);
    Build(alt[i + 1..], e.exit, e.nfa)
  }

  /** One step of the scan at index `i` over anything but `|`: a group, a `*` or `+`, or a literal. */
  function Atom(alt: string, i: nat, cur: State, a: Nfa): (r: Step)
    requires i < |alt| && alt[i] != '|' && cur in a.trans
    ensures a.trans.Keys <= r.nfa.trans.Keys && r.cursor in r.nfa.trans
    ensures i < r.next <= |alt|
    decreases |alt|, 0, |alt| - i, 2
  {
    if alt[i] == '(' then Group(alt, i, cur, a)
    else if IsPostfix(alt[i]) then
      var s := Repeat(a, alt[i], Before(alt, i), cur);
      Step(s.nfa, i + 1, s.exit)
    else
      var s := Literal(a, alt[i], cur);
      Step(s.nfa, i + 1, s.exit)
  }

  /**
   * A group at index `i`: its interior built behind a fresh group entry,
   * then whatever follows at the index where the depth scan stopped.
   */
  function Group(alt: string, i: nat, cur: State, a: Nfa): (r: Step)
    requires i < |alt| && cur in a.trans
    ensures a.trans.Keys <= r.nfa.trans.Keys && r.cursor in r.nfa.trans
    ensures i < r.next <= |alt|
    decreases |alt|, 0, |alt| - i, 1
  {
    GroupEnd(alt, CloseIndex(alt, i), |a.states|, Inside(alt, i, cur, a))
  }

  /**
   * The interior of a group at index `i`: an epsilon edge from `cur` into
   * the fresh group entry `|a.states|`, and the characters between the `(`
   * and the index before where the depth scan stopped built from there.
   */
  function Inside(alt: string, i: nat, cur: State, a: Nfa): (r: Built)
    requires i < |alt| && cur in a.trans
    ensures a.trans.Keys <= r.nfa.trans.Keys && r.exit in r.nfa.trans
    ensures |a.states| in r.nfa.trans
    decreases |alt|, 0, |alt| - i, 0
  {
    var j := CloseIndex(alt, i);
    var e := Enter(a, cur);
    Build(Slice(alt, i + 1, j - 1), e.exit, e.nfa)
  }

  /** A group's interior unfolded: the entry, then an invocation on the slice. */
  lemma InsideStep(alt: string, i: nat, cur: State, a: Nfa)
    requires i < |alt| && cur in a.trans
    ensures var e := Enter(a, cur);
      Inside(alt, i, cur, a) == Build(Slice(alt, i + 1, CloseIndex(alt, i) - 1), e.exit, e.nfa)
  {
  }

  /**
   * The end of a group entered at `g` and built up to `b`, at the index `j`
   * where the depth scan stopped: a `*` or `+` there repeats the group and
   * the scan resumes after it; otherwise it resumes at `j`.
   */
  function GroupEnd(alt: string, j: nat, g: State, b: Built): (r: Step)
    requires j <= |alt| && g in b.nfa.trans && b.exit in b.nfa.trans
    ensures b.nfa.trans.Keys <= r.nfa.trans.Keys && r.cursor in r.nfa.trans
    ensures j <= r.next <= |alt|
  {
    if j < |alt| && IsPostfix(alt[j]) then
      var s := GroupPostfix(b.nfa, alt[j], b.exit, g);
      Step(s.nfa, j + 1, s.exit)
    else
      Step(b.nfa, j, b.exit)
  }

  /** A fresh state entered from `from` on epsilon: how a group and a `|` branch begin. */
  function Enter(a: Nfa, from: State): (r: Built)
    requires from in a.trans
    ensures r.exit == |a.states| && r.nfa.trans.Keys == a.trans.Keys + {r.exit}
    ensures r.nfa.states == a.states + {r.exit} && r.nfa.start == a.start && r.nfa.accept == a.accept
  {
    var (a1, q) := NewState(a);
    Built(AddEdge(a1, from, EPSILON, q), q)
  }

  /** A literal `c`: a fresh state reached from `cur` on `c` becomes the cursor. */
  function Literal(a: Nfa, c: char, cur: State): (r: Built)
    requires cur in a.trans
    ensures r.exit == |a.states| && r.nfa.trans.Keys == a.trans.Keys + {r.exit}
    ensures r.nfa.states == a.states + {r.exit} && r.nfa.start == a.start && r.nfa.accept == a.accept
  {
    var (a1, t) := NewState(a);
    Built(AddEdge(a1, cur, c, t), t)
  }

  /**
   * A `*` or `+` after the character `prev`, with a fresh state `t` as the
   * new cursor: `*` loops on `cur` over `prev` and leaves to `t` on epsilon;
   * `+` goes to `t` over `prev` and comes back to `cur` on epsilon.
   */
  function Repeat(a: Nfa, op: char, prev: char, cur: State): (r: Built)
    requires cur in a.trans
    ensures r.exit == |a.states| && r.nfa.trans.Keys == a.trans.Keys + {r.exit}
    ensures r.nfa.states == a.states + {r.exit} && r.nfa.start == a.start && r.nfa.accept == a.accept
  {
    var (a1, t) := NewState(a);
    if op == '*' then
      Built(AddEdge(AddEdge(a1, cur, prev, cur), cur, EPSILON, t), t)
    else
      Built(AddEdge(AddEdge(a1, cur, prev, t), t, EPSILON, cur), t)
  }

  /**
   * A `*` or `+` after a group entered at `g` and left at `exit`, with a
   * fresh repeat state as the new cursor: both operators add `exit --ε-->
   * repeat` and `repeat --ε--> g`; `*` also adds `exit --ε--> g`.
   */
  function GroupPostfix(a: Nfa, op: char, exit: State, g: State): (r: Built)
    requires exit in a.trans && g in a.trans
    ensures r.exit == |a.states| && r.nfa.trans.Keys == a.trans.Keys + {r.exit}
    ensures r.nfa.states == a.states + {r.exit} && r.nfa.start == a.start && r.nfa.accept == a.accept
  {
    var (a1, rep) := NewState(a);
    var a2 := if op == '*' then AddEdge(AddEdge(a1, exit, EPSILON, rep), exit, EPSILON, g)
              else AddEdge(a1, exit, EPSILON, rep);
    Built(AddEdge(a2, rep, EPSILON, g), rep)
  }

  /** `_build_nfa`: one invocation on the whole pattern from the start state `q0`. */
  function Construct(pattern: string): (r: Nfa)
    ensures 0 in r.trans
  {
    Build(pattern, 0, Initial()).nfa
  }
}
