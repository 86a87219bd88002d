# RegexNFA construction, modelled in Dafny

This project models the regex-to-NFA constructor of `main.py`. The
`RegexNFA` object holds a pattern and four fields: the state set, the
transition table (state → symbol → set of destination states), the start
state `q0` and the accept set. The constructor fills these in place.

- `_build_nfa` resets the automaton to `q0` alone.
- It then makes one call of the recursive `process_alternative` on the whole pattern.
- `process_alternative` scans its string left to right with a cursor state, handling:
  - literals;
  - parenthesised groups, whose end is found by a depth-counting scan and whose interior is built recursively;
  - `*` and `+` after a character or after a group;
  - `|`, whose tail is built recursively from a fresh branch state entered from the invocation's own entry state.
- At the end of each call, the branch exits are joined into the final cursor by epsilon edges, the cursor is marked accepting, and it is returned.

The model has six modules.

- `Automata` (automata.dfy) is the automaton as a value:
  - the `Nfa` datatype and its validity invariant `Valid`;
  - the edge relation `Edges`, paths along it (`IsPath`), and `Rooted`: every state but `q0` is entered by an edge from an older state, so every state is reached from `q0`;
  - the three ways the construction changes an automaton: `create_state` (`NewState`), the "create the set if missing, then add" idiom (`AddEdge`) and the accept mark (`MarkAccept`).
- `Patterns` (patterns.dfy) holds:
  - parenthesis depth and balance;
  - the depth scan that finds the end of a group, as a function (`CloseIndex`) and as the source's `while` loop (`MatchParen`).
- `Construction` (construction.dfy) is `process_alternative` as pure functions on automaton values:
  - `Build` is one invocation and `Loop` is its scan;
  - `Atom`, `Group`, `Inside` and `GroupEnd` are the group and postfix branches;
  - `Alternation` is the `|` branch;
  - `Enter`, `Literal`, `Repeat` and `GroupPostfix` are the fresh-state steps;
  - `Join` is the branch reconvergence;
  - `Construct` is `_build_nfa`.
- `Properties` (properties.dfy) proves what the construction guarantees:
  - every step adds exactly the edges the source writes;
  - every invocation keeps the automaton valid and rooted, and removes nothing;
  - every invocation adds at most one state per character and marks its exit accepting;
  - a `|` leaves from the entry state;
  - a literal-only pattern becomes a chain;
  - `x|y` has two accept states.
- `Counting` (counting.dfy) gives the exact number of states for a balanced pattern. It is `q0` plus one state per character other than `)`.
- `RegexNfaObject` (regex_nfa.dfy) is the `RegexNFA` class:
  - it has mutable fields `states`, `transitions` and `acceptStates`;
  - it has the methods `CreateState`, `AddTransition` and `ProcessAlternative` (a recursive method whose scan is a `while` loop over `i`), which finds the end of a group with the module-level method `Patterns.MatchParen` (a `while` loop over `j` and `depth`);
  - each method is proved to leave the object holding exactly the automaton the pure construction computes.

Three representation choices:

- State `qk` is the natural number `k`; the fresh state is `|states|`.
- Symbols are single characters.
- The epsilon label is the character `'ε'`, as in the source. A pattern containing `ε` therefore produces edges that cannot be told apart from epsilon edges, exactly as in the source.

The code does no validation and builds an automaton for every string.
The model does the same, with no precondition on the pattern:

- An unmatched `(` makes the depth scan stop at the end of the string. The slice `alt[i+1:j-1]` then drops the last character.
- An unmatched `)` is read as a literal.
- A `*` or `+` at index 0 repeats `alt[-1]`, the last character (`Before`).
- A `*` or `+` after another operator repeats that operator character.
- Every invocation, one per group and `|` branch plus the outer one, marks its own exit accepting. So `a|b` has the accept set `{q1, q3}` (`AlternationAcceptsBoth`).

## Model

| member | source | states |
|---|---|---|
| RegexNfaObject.RegexNfa.constructor | main.py:4-10 | the object keeps the pattern; its fields hold exactly `Construct(pattern)`; that automaton is valid, enters every state but `q0` from an older state, has at most one state per pattern character besides `q0`, and has a non-empty accept set |
| RegexNfaObject.RegexNfa.BuildNfa | main.py:12-148 | after resetting to `q0` alone and making one invocation on the pattern, the fields hold exactly `Construct(pattern)` |
| RegexNfaObject.RegexNfa.CreateState | main.py:18-22 | the returned state is `|states|`; it is added to the state set with an empty table; nothing else changes |
| RegexNfaObject.RegexNfa.AddTransition | main.py:47-49 | the "create the set if missing, then add" idiom leaves the fields holding `AddEdge` of the old automaton |
| RegexNfaObject.RegexNfa.ProcessAlternative | main.py:24-144 | the new fields and the returned state are exactly `Build(alt, start)` of the old automaton |
| RegexNfaObject.RegexNfa.Scan | main.py:25-134 | the `while` loop over `i` leaves the fields, the cursor and the recorded branch exits equal to `Loop(alt, 0, start, start)` of the old automaton |
| RegexNfaObject.RegexNfa.ReadAlternation | main.py:80-89 | the `|` branch leaves the fields and the branch exit equal to `Alternation` of the old automaton |
| RegexNfaObject.RegexNfa.ReadAtom | main.py:29-134 | each non-`|` branch of the loop body leaves the fields, the resume index and the cursor equal to `Atom` of the old automaton |
| RegexNfaObject.RegexNfa.ReadGroup | main.py:31-78 | the `(` branch leaves the fields, the resume index and the cursor equal to `Group` of the old automaton |
| RegexNfaObject.RegexNfa.ReadInside | main.py:42-51 | the group entry is the fresh state `|states|`; the fields and the group's exit equal `Inside` of the old automaton |
| RegexNfaObject.RegexNfa.ReadGroupEnd | main.py:53-78 | the part after the group's `)` leaves the fields, the resume index and the cursor equal to `GroupEnd` |
| RegexNfaObject.RegexNfa.EnterNew | main.py:44-49 | a fresh state entered on epsilon leaves the fields equal to `Enter` of the old automaton |
| RegexNfaObject.RegexNfa.RepeatGroup | main.py:54-76 | a group postfix leaves the fields and the repeat state equal to `GroupPostfix` of the old automaton |
| RegexNfaObject.RegexNfa.ReadRepeat | main.py:91-125 | a `*` or `+` after a character leaves the fields and the new cursor equal to `Repeat` of the old automaton |
| RegexNfaObject.RegexNfa.ReadLiteral | main.py:127-134 | a literal leaves the fields and the new cursor equal to `Literal` of the old automaton |
| RegexNfaObject.RegexNfa.JoinBranches | main.py:136-140 | the `for` loop over `alt_states` leaves the fields equal to `Join` of the old automaton |
| Patterns.CloseIndex | main.py:33-40 | the depth scan of a group opened at `i` stops strictly after `i` and no later than the end of the string |
| Patterns.ScanFromStops | main.py:35-40 | the depth scan stops at the first index where its counter is no longer positive, or at the end |
| Patterns.CloseIndexStops | main.py:33-40 | the scan stops at the first index after `i` where the depth is back to its value before the `(`, or at the end |
| Patterns.Weight | main.py:36-39 | the depth counter goes up by one on `(`, down by one on `)`, and stays on any other character |
| Patterns.ScanFrom | main.py:35-40 | the `while j < len(alt) and depth > 0` loop: it stops no earlier than where it starts and no later than the end of the string |
| Construction.Before | main.py:93 | `alt[i-1]`, as both the `*` branch and the `+` branch (main.py:111) read it in Python: the character at `(i - 1) mod |alt|`, so index 0 gives the last character |
| Patterns.MatchParen | main.py:33-40 | the inner `while` loop over `j` and `depth` returns `CloseIndex`, with its bounds and depth facts |
| Patterns.GroupClose | main.py:33-43 | in a balanced pattern the scan stops one past the matching `)`, at least two characters after the `(` |
| Patterns.GroupShape | main.py:33-43 | in a balanced pattern the subpattern `alt[i+1:j-1]` between the parentheses is itself balanced, and the depth after the group is the depth before it |
| Patterns.GroupClosers | main.py:33-43 | in a balanced pattern the group scanned from `i` to `j` holds exactly one more `)` than the subpattern `alt[i+1:j-1]` |
| Patterns.TailClosers | main.py:88 | the tail `alt[i+1:]` after a `|` holds every `)` from the `|` on |
| Patterns.TopLevelStep | main.py:127-134 | a character read at depth zero of a balanced pattern is not `)`, so the literal branch never receives a closing parenthesis there |
| Patterns.SuffixBalanced | main.py:88 | the part of a balanced string after an index at depth zero is balanced |
| Patterns.TailShape | main.py:88 | the tail `alt[i+1:]` after a `|` read at depth zero, which the `|` branch passes to a recursive call, is balanced |
| Automata.Initial | main.py:14-16 | the reset automaton: start `q0`, the state set `{q0}`, an empty table for `q0`, no accept state |
| Automata.InitialValid | main.py:14-16 | the reset automaton is valid, trivially rooted, and has no edge |
| Automata.RootedKeep | main.py:137-143 | adding edges or accept marks without adding states keeps every state entered from an older one |
| Automata.RootedNew | main.py:18-22 | a new state `|states|` entered by an edge from an existing state keeps every state entered from an older one |
| Automata.PathExtend | main.py:47-49 | a path followed by an edge out of its last state is a path |
| Automata.RootedReaches | main.py:18-22 | in a valid rooted automaton every state is reached from `q0` by a path, by induction on the state number |
| Automata.NewState | main.py:18-22 | the new state is numbered `|states|`; it is added to the states and the table keys with an empty row; the start and accept states stay |
| Automata.NewStateValid | main.py:18-22 | on a valid automaton the new state was not already there, the state count grows by exactly one, validity is kept, and no edge appears or disappears |
| Automata.AddEdge | main.py:47-49 | `q` becomes a destination of `p` on `s`; the states, the table keys, the start and the accept set stay |
| Automata.AddEdgeEdges | main.py:47-49 | the edge relation gains exactly `(p, s, q)` and loses nothing |
| Automata.AddEdgeIdempotent | main.py:47-49 | adding an edge that is already present leaves the automaton unchanged, because destinations form a set |
| Automata.AddEdgeValid | main.py:47-49 | an edge between two states keeps the automaton valid |
| Automata.MarkAccept | main.py:143 | the accept set gains `q`; the states, the start and the table stay |
| Automata.MarkAcceptEdges | main.py:143 | an accept mark adds and removes no edge |
| Construction.Slice | main.py:43 | Python's slice `s[lo:hi]` for in-range bounds: length `hi - lo`, or 0 when `hi < lo`, and the characters of `s` from `lo` |
| Construction.Join | main.py:137-140 | branch reconvergence changes neither the states, the table keys, the start nor the accept set |
| Construction.Build | main.py:24-144 | an invocation only adds table keys, and it returns a state that has a table |
| Construction.Loop | main.py:28-134 | the scan only adds table keys; the final cursor and every recorded branch exit have tables |
| Construction.Alternation | main.py:80-89 | the `|` branch only adds table keys and returns a state that has a table |
| Construction.Atom | main.py:29-134 | one step of the scan moves the index forward, to at most the end of the string, and only adds table keys |
| Construction.Group | main.py:31-78 | a group moves the index forward, to at most the end of the string |
| Construction.Inside | main.py:42-51 | the group entry `|states|` and the group's exit have tables |
| Construction.GroupEnd | main.py:53-78 | after a group the scan resumes no earlier than where the depth scan stopped and no later than the end |
| Construction.Enter | main.py:44-49 | the entered state is the fresh state `|states|`, the only new state and table key; the start and accept states stay |
| Construction.Literal | main.py:127-134 | the new cursor is the fresh state `|states|`, the only new state and table key; the start and accept states stay |
| Construction.Repeat | main.py:91-125 | the new cursor is the fresh state `|states|`, the only new state and table key; the start and accept states stay |
| Construction.GroupPostfix | main.py:54-76 | the repeat state is the fresh state `|states|`, the only new state and table key; the start and accept states stay |
| Construction.Construct | main.py:12-148 | `_build_nfa` yields an automaton in which `q0` has a table |
| Properties.EnterEdges | main.py:44-49 | entering from `from` adds the fresh state and exactly the edge `from --ε--> fresh`, keeping validity |
| Properties.LiteralEdges | main.py:127-134 | a literal `c` adds the fresh state `t` and exactly the edge `cur --c--> t`, keeping validity |
| Properties.RepeatEdges | main.py:91-125 | `*` adds exactly `cur --prev--> cur` and `cur --ε--> t`; `+` adds exactly `cur --prev--> t` and `t --ε--> cur`; both keep validity |
| Properties.GroupPostfixEdges | main.py:54-76 | a group `*` adds exactly `exit --ε--> rep`, `exit --ε--> g` and `rep --ε--> g`; a group `+` adds exactly `exit --ε--> rep` and `rep --ε--> g`; both keep validity |
| Properties.JoinEdges | main.py:137-140 | the join adds exactly one epsilon edge from each recorded branch exit into the cursor |
| Properties.JoinValid | main.py:137-140 | the join keeps a valid automaton valid |
| Properties.BuildGrows | main.py:24-144 | an invocation on a valid automaton leaves it valid, and rooted if it was. It removes no state, edge or accept mark, adds at most one state per character of `alt`, and returns an accept state |
| Properties.LoopGrows | main.py:28-134 | the scan from index `i` keeps validity, removes nothing and adds at most one state per remaining character; the cursor and the branch exits are states |
| Properties.AlternationGrows | main.py:80-89 | the `|` branch keeps validity, removes nothing and adds at most one state per character from the `|` on |
| Properties.AtomGrows | main.py:29-134 | one step keeps validity, removes nothing and adds at most one state per character it consumes |
| Properties.GroupGrows | main.py:31-78 | a group with its postfix keeps validity, removes nothing and adds at most one state per character it consumes |
| Properties.InsideGrows | main.py:42-51 | a group's interior keeps validity, removes nothing, and holds the group entry and the exit as states |
| Properties.GroupEndGrows | main.py:53-78 | the group postfix adds at most one state per character it consumes, entered from the group's exit, and keeps validity |
| Properties.AddsGrows | main.py:18-22 | a step that adds the fresh state with an edge into it from an existing state, and removes no edge, grows the automaton by one state and keeps it rooted |
| Properties.GrowsKeep | main.py:137-143 | growth followed by the join and the accept mark, which add edges and marks over the same states, is still growth |
| Properties.ConstructReaches | main.py:12-148 | every state of `_build_nfa`'s automaton is reached from `q0` by a path |
| Properties.GroupEndEdges | main.py:53-78 | a `*` or `+` after a group is consumed, with exactly the edges of `GroupPostfixEdges`; otherwise the automaton and cursor are the group's and the scan resumes where the depth scan stopped |
| Properties.GroupEntered | main.py:31-78 | a group is entered from the cursor on epsilon into the fresh state `|states|`; the scan resumes where the depth scan stopped, or one past it |
| Properties.AlternationEntered | main.py:82-85 | the `|` branch state is entered on epsilon from the invocation's entry state, not from the cursor |
| Properties.BuildJoins | main.py:136-144 | an invocation returns the scan's final cursor and marks it accepting; each recorded branch exit has an epsilon edge into it |
| Properties.ConstructValid | main.py:12-148 | `_build_nfa` on any pattern yields a valid automaton with start `q0`, every state but `q0` entered by an edge from an older state, between 1 and `|pattern| + 1` states, and a non-empty accept set |
| Properties.AtomShape | main.py:91-134 | a literal, `*` or `+` consumes one character and makes the fresh state `|states|` the cursor, adding exactly one state |
| Properties.AtomEdges | main.py:91-134 | the edges one literal, `*` or `+` step adds, with `alt[i-1]` (the last character at index 0) as the repeated symbol |
| Properties.LiteralChain | main.py:127-134 | a pattern of `n` non-operator characters yields exactly the states `q0 .. qn`, the chain `qk --p[k]--> q(k+1)` as its only edges, and the accept set `{qn}` |
| Counting.ConstructCount | main.py:12-148 | `_build_nfa` on a balanced pattern creates exactly `|pattern| - (number of ')') + 1` states |
| Counting.BuildCount | main.py:24-144 | an invocation on a balanced string adds exactly one state per character other than `)` |
| Counting.LoopCount | main.py:28-134 | the scan from an index at depth zero adds exactly one state per remaining character other than `)` |
| Counting.AlternationCount | main.py:80-89 | a `|` at depth zero adds exactly one state per character from the `|` on, other than `)` |
| Counting.AtomCount | main.py:29-134 | one step at depth zero adds exactly one state per consumed character other than `)`, and the scan resumes at depth zero |
| Counting.GroupCount | main.py:31-78 | a group at depth zero, with its postfix, adds exactly one state per consumed character other than `)`, and the scan resumes at depth zero |
| Counting.InsideCount | main.py:42-51 | a group's entry and interior add exactly one state per character from the `(` through the matching `)` except the `)` characters |
| Counting.GroupEndCount | main.py:53-78 | a `*` or `+` after a group adds exactly one state; otherwise there is none; the depth is unchanged |
| Properties.AlternationAcceptsBoth | main.py:80-144 | for two literals `x|y` the accept set is `{q1, q3}`: both the outer exit and the branch exit are accepting |

## Left out

- `visualize` (Graphviz rendering to a PNG file) and `main` (reading the pattern from the terminal) are I/O and foreign libraries; they are not part of this model.
- The language the automaton accepts is not modelled. The code never runs the automaton, so no property about matching is stated.
- State names `q0`, `q1`, … are modelled as the numbers `0`, `1`, …. The source derives each name from `len(self.states)` alone, so the two namings correspond one to one.
- Symbols are characters. The epsilon label `'ε'` shares its key space with pattern characters, as in the source.
- Python's recursion limit is not modelled. A deeply nested pattern that would raise `RecursionError` in the source is built normally here.
- The branches of the scan loop are separate methods here (`ReadAtom`, `ReadGroup`, `ReadRepeat`, …), not inline code. The order of the updates within each branch is the source's.
- The exact number of states is stated only for balanced patterns (`ConstructCount`). For any pattern the model bounds it by `|pattern| + 1`. An unbalanced pattern loses characters to the slice after an unmatched `(`, which the model builds as the source does but does not count exactly.
