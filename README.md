# MephiTheoryofAutomata in Dafny

This project models the automata-theory labs of the MephiTheoryofAutomata repository and proves
properties of the model.

**Regular-expression compiler (Lab2).** A pattern goes through these stages:

- tokens (`regex_token.dfy`) and a lexer written as a generator (`regex_lexer.dfy`);
- a syntax tree (`regex_node.dfy`) built by a recursive-descent parser (`regex_parser.dfy`);
- a Thompson-style NFA built in an arena of numbered states (`regex_nfa.dfy`). Back-references
  clone the states reachable from the recorded group's start. Every call of `build` also returns
  a ghost derivation: the node, the states before and after, the fragment, the recorded groups
  before and after, and the same for each child build. `Derives` fixes, for each kind of node,
  exactly what the state list becomes.
- The DFA operations:
  - ε-closure and subset construction (`subset_construction.dfy`);
  - minimisation by partition refinement (`minimize.dfy`);
  - totalisation with a `TRAP` state, and complement (`dfa_total.dfy`);
  - product intersection (`dfa_intersect.dfy`);
  - state elimination to an expression string (`dfa_to_regex.dfy`);
  - full match and substring search (`regex_dfa.dfy`).
- The `CompiledDFA` façade with its cached minimised automaton (`my_regex.dfy`).

The language results proved are:

- the subset construction accepts what the NFA accepts;
- minimisation keeps the language and never adds states;
- totalisation keeps the language;
- the complement accepts exactly the strings over the observed alphabet that the original rejects;
- the product accepts what both inputs accept;
- `dfa_to_regex` yields `∅` exactly when no string is accepted.

**Robot language (Lab3).**

- The type checker (`semantic.dfy`) has a stack of case-insensitive scopes and two phases.
- The interpreter (`interpreter.dfy`) has a stack of frames and a stack of parameter renamings.
  A call copies the value of every argument into the callee's frame: the first under a fresh
  name, the others under the caller's own names. When it returns, only the second formal's value
  is copied back, into the caller's top frame, under the second argument's name.
- The maze world and the robot (`loader.dfy`).
- The breadth-first maze solver (`solver.dfy`). Its answer is proved to be a shortest path, or
  `None` exactly when the exit cannot be reached.

**Relation registry (Lab1).**

- The regular-expression front end (`relations.dfy`): its table of relations and the attribute merge.
- The state-machine front end (`smc_parser.dfy`): its cursor and the action methods the state
  machine calls.

`text.dfy`, `sets.dfy` and `wrappers.dfy` hold the string, set and result helpers the modules share.

Things the source does differently from what its documents say:

- `dfa_to_regex` always writes the loop step as `rik(rkk)…rkj`, even when `rkk` is `ε`; it never
  drops the starred part. `DfaToRegex.Extend` follows the code.
- `parse_concat` applies `parse_suffix` to every atom, so a back-reference takes suffixes like any
  other atom. `RegexParser.ReferenceTakesSuffix` exhibits it.
- `merge_attributes` says it avoids duplicates, but it can repeat a name when an attribute already
  holds a dot. `Relations.MergeCanRepeat` exhibits such a case. `Relations.MergeDistinct` proves
  there are no duplicates when no attribute holds a dot and neither input list repeats a name
  (`create r(a, a)` repeats one without any dot).

## Model

| member | source | states |
|---|---|---|
| RegexToken.NewToken | Lab2/RegexToken.py:21-23 | a token keeps the type it was given, and an omitted value is `None` |
| RegexToken.Repr | Lab2/RegexToken.py:25-26 | the repr starts with the type name; it is exactly the name when the value is falsy, and otherwise the value follows in parentheses |
| RegexToken.ReprDropsFalsyValue | Lab2/RegexToken.py:25-26 | a falsy value such as the count 0 prints like no value at all |
| RegexToken.ReprShowsTruthyValue | Lab2/RegexToken.py:25-26 | a truthy value can be read back from between the parentheses |
| RegexToken.ReprRepeatCount | Lab2/RegexToken.py:25-26 | the count of a `REPEAT` token prints in decimal and reads back as the same number |
| RegexLexer.Find | Lab2/RegexLexer.py:54 | `find` returns the first index at or after the start that holds the character, or -1 when there is none |
| RegexLexer.StepAt | Lab2/RegexLexer.py:24-100 | one turn of the lexing loop, with its rules in source order; a token always moves the cursor forward and never past the end |
| RegexLexer.LexEofOnlyAtEnd | Lab2/RegexLexer.py:23-103 | a run without error ends with exactly one `EOF`, and a failing run yields no `EOF` |
| RegexLexer.LexNeverEmitsUnusedKinds | Lab2/RegexLexer.py:23-103 | the lexer never yields `NAMED_GROUP_END` or `EMPTY` |
| RegexLexer.LexTokensWellFormed | Lab2/RegexLexer.py:23-103 | every token yielded carries the kind of value its type calls for |
| RegexLexer.LexPlainText | Lab2/RegexLexer.py:98-103 | a pattern of ordinary characters gives one `CHAR` token per character, in order, then `EOF` |
| RegexLexer.EscapeIsLiteral | Lab2/RegexLexer.py:28-32 | `%x%` becomes a literal `x`, even when `x` is a metacharacter |
| RegexLexer.RepeatErrors | Lab2/RegexLexer.py:53-59 | `{` without a closing `}`, or with anything but digits inside, raises `ValueError` before yielding anything |
| RegexLexer.Lexer.constructor | Lab2/RegexLexer.py:7-10 | the lexer starts at position 0 of its input |
| RegexLexer.Lexer.NextChar | Lab2/RegexLexer.py:12-15 | the current character, or the empty string past the end |
| RegexLexer.Lexer.Advance | Lab2/RegexLexer.py:17-18 | the cursor moves by one |
| RegexLexer.Lexer.Lex | Lab2/RegexLexer.py:23-103 | running the generator to exhaustion gives exactly the specified tokens and error, and on success the cursor ends at the end of the input |
| RegexLexer.Lexer.NextStep | Lab2/RegexLexer.py:24-100 | one turn of the loop does what the specified rule at the cursor says |
| RegexLexer.LexFromEmit | Lab2/RegexLexer.py:23-103 | a yielded token moves from the pending part of the run to the yielded part |
| RegexLexer.LexFromFail | Lab2/RegexLexer.py:56-71 | a rule that raises ends the run, keeping the tokens already yielded |
| RegexNode.NewNode | Lab2/RegexNode.py:18-28 | a node keeps its operator, value and name, and missing children become `[]` |
| RegexNode.Indent | Lab2/RegexNode.py:31 | the indentation at a level is exactly twice that many spaces |
| RegexNode.ReprStartsWithBase | Lab2/RegexNode.py:30-41 | every repr starts with its indentation and then the node's own first line |
| RegexNode.ReprClosesParent | Lab2/RegexNode.py:39-41 | a node with children ends with a newline, its own indentation and `)` |
| RegexNode.JoinChildrenStartsWithFirst | Lab2/RegexNode.py:39-41 | each child's repr starts at the next indentation level |
| RegexParser.Pull | Lab2/RegexParser.py:9-15 | `next(tokens)` gives the next yielded token, or else the generator's error, or `StopIteration` after a completed run |
| RegexParser.ExpectAt | Lab2/RegexParser.py:17-20 | `expect` advances only past a token of the expected type, and otherwise raises `SyntaxError` |
| RegexParser.PSuffix | Lab2/RegexParser.py:34-48 | suffixes are applied until the current token is not one, and a well-formed operand gives a well-formed node |
| RegexParser.PAtom | Lab2/RegexParser.py:77-102 | an atom consumes at least one token; a token that cannot start an atom raises `SyntaxError` |
| RegexParser.PConcatLoop | Lab2/RegexParser.py:61-70 | the loop stops at the first token that cannot start an atom |
| RegexParser.PConcat | Lab2/RegexParser.py:58-75 | a concatenation needs at least one atom (otherwise `SyntaxError`) and yields a well-formed node |
| RegexParser.PExprLoop | Lab2/RegexParser.py:52-53 | alternatives are collected until the current token is not an `OR` token |
| RegexParser.PExpr | Lab2/RegexParser.py:50-56 | an expression consumes tokens, stops at a token other than `OR` and yields a well-formed node |
| RegexParser.ParseFrom | Lab2/RegexParser.py:22-26 | a successful parse yields a well-formed tree |
| RegexParser.Parse | Lab2/RegexParser.py:7-26 | parsing a whole token stream yields a well-formed tree |
| RegexParser.ParsePatternWellFormed | Lab2/RegexParser.py:22-26 | every pattern that parses gives a tree of the shapes the NFA construction relies on |
| RegexParser.ParseOkMeansLexOk | Lab2/RegexParser.py:24-25 | a pattern parses only when the lexer reads all of it without error |
| RegexParser.NoLeadingAtomRejected | Lab2/RegexParser.py:71-72 | an empty pattern, or one that starts with a bar or `)`, raises `SyntaxError` |
| RegexParser.BarWithoutOperandRejected | Lab2/RegexParser.py:52-72 | a trailing or doubled bar raises `SyntaxError` |
| RegexParser.EmptyGroupRejected | Lab2/RegexParser.py:84-87 | `()` raises `SyntaxError` |
| RegexParser.UnclosedGroupRejected | Lab2/RegexParser.py:84-96 | a group whose expression is not followed by `)` raises `SyntaxError` |
| RegexParser.ConcatOfChars | Lab2/RegexParser.py:61-70 | a run of `CHAR` tokens is gathered, in order, into the concatenation |
| RegexParser.CharTokensParse | Lab2/RegexParser.py:22-82 | `CHAR` tokens followed by `EOF` parse to their characters, in order |
| RegexParser.PlainPatternParse | Lab2/RegexParser.py:58-82 | a pattern of ordinary characters parses to its single character, or to the `CONCAT` of its characters in order |
| RegexParser.SuffixesChain | Lab2/RegexParser.py:34-48 | suffixes apply left to right: `a?…` is `KLEENE(OPTIONAL(a))` |
| RegexParser.ReferenceTakesSuffix | Lab2/RegexParser.py:66-100 | a back-reference also takes suffixes: `<g>?` is `OPTIONAL(NAMED_REF g)` |
| RegexParser.RegexParser.constructor | Lab2/RegexParser.py:7-9 | the constructor takes the first token from the stream |
| RegexParser.RegexParser.Current | Lab2/RegexParser.py:11-12 | the current token is the one at the cursor |
| RegexParser.RegexParser.Advance | Lab2/RegexParser.py:14-15 | `advance` takes the next token, or reports the generator's error |
| RegexParser.RegexParser.Expect | Lab2/RegexParser.py:17-20 | `expect` behaves as `ExpectAt` specifies |
| RegexParser.RegexParser.Match | Lab2/RegexParser.py:28-32 | `match` advances exactly when the current token has the given type |
| RegexParser.RegexParser.ParseSuffix | Lab2/RegexParser.py:34-48 | gives the result and cursor that `PSuffix` specifies |
| RegexParser.RegexParser.ParseExpression | Lab2/RegexParser.py:50-56 | gives the result and cursor that `PExpr` specifies |
| RegexParser.RegexParser.ParseConcat | Lab2/RegexParser.py:58-75 | gives the result and cursor that `PConcat` specifies |
| RegexParser.RegexParser.ParseAtom | Lab2/RegexParser.py:77-102 | gives the result and cursor that `PAtom` specifies |
| RegexParser.RegexParser.Parse | Lab2/RegexParser.py:22-26 | gives the result that `ParseFrom` specifies |
| RegexParser.ParseTokens | Lab2/RegexParser.py:7-26 | constructing a parser and calling `parse` gives `Parse` of the tokens |
| RegexNfa.StateNamesDistinct | Lab2/RegexNFA.py:10-11 | the counter gives every state a name of its own |
| RegexNfa.AddEdgeTargets | Lab2/RegexNFA.py:17-21 | `add_transition` adds exactly one target: to the ε-list for ε, otherwise to the list of that symbol, and changes no other list and not the final flag |
| RegexNfa.Arena.NewState | Lab2/RegexNFA.py:9-15 | `State()` appends one non-final state with no edges, numbered by the counter |
| RegexNfa.Arena.AddTransition | Lab2/RegexNFA.py:17-21 | only the source state changes, and it changes as `AddEdgeTargets` describes |
| RegexNfa.Arena.SetFinal | Lab2/RegexNFA.py:105-159 | only the final flag of that one state changes |
| RegexNfa.Arena.MakeNfa | Lab2/RegexNFA.py:31-34 | `NFA(start, end)` marks its end final and changes nothing else |
| RegexNfa.ClosureLeast | Lab2/RegexNFA.py:44-54 | the set the walk computes is the least set that holds the start and is closed under the edges followed |
| RegexNfa.ClosureUnique | Lab2/RegexNFA.py:44-54 | a start set has one closure, so the order of the walk does not matter |
| RegexNfa.Closure | Lab2/RegexNFA.py:44-54 | the worklist walk returns exactly the closure of its start set |
| RegexNfa.CloneState | Lab2/RegexNFA.py:59-78 | a copy has the original's symbols and edge counts, is never final, and gains one ε-edge to the new end exactly when the original was final |
| RegexNfa.ListFrom | Lab2/RegexNFA.py:59-71 | the start comes first and every reachable state is listed once |
| RegexNfa.AllocCopies | Lab2/RegexNFA.py:62-63 | one fresh state per reachable original, recorded in the state map |
| RegexNfa.FillCopies | Lab2/RegexNFA.py:64-78 | each copy receives its original's edges renamed through the state map, plus the ε-edge to the new end when the original was final |
| RegexNfa.CloneNfa | Lab2/RegexNFA.py:37-80 | the clone is a fresh fragment: the state map is one-to-one from the states reachable from the start onto fresh states, each copy's edges are the renamed original ones, the originals do not change, and the new end is the only final state |
| RegexNfa.FinishClone | Lab2/RegexNFA.py:59-80 | once the copies are allocated: the new end is appended, every copy gets its original's edges renamed, the end is marked final, and the result is the clone `ClonedFrom` describes |
| RegexNfa.CharFragment | Lab2/RegexNFA.py:89-94 | `CHAR c` gives two fresh states joined by one edge under `c` (an ε-edge when `c` is the ε symbol) with the end final |
| RegexNfa.Chain | Lab2/RegexNFA.py:102-160 | linking two fragments adds the ε-edge from the first end to the second start, clears the first end's flag, and the result runs from the first start to the second end |
| RegexNfa.Star | Lab2/RegexNFA.py:121-130 | `KLEENE` adds a fresh start and end; the start and the old end each get ε-edges to the inner start and to the new end, and only the new end is final |
| RegexNfa.Opt | Lab2/RegexNFA.py:132-141 | `OPTIONAL` is `KLEENE` without the back-edge from the inner end |
| RegexNfa.EmptyRepeat | Lab2/RegexNFA.py:146-150 | `REPEAT` 0 gives two fresh states joined by one ε-edge |
| RegexNfa.AltBranch | Lab2/RegexNFA.py:113-118 | one branch of `ALT` gets an ε-edge from the shared start and one to the shared end, and its end stops being final |
| RegexNfa.WellFormedBuildable | Lab2/RegexNFA.py:87-175 | every tree the parser yields meets what `build` asserts of its input (a non-empty `CONCAT`, a child under each unary operator, a count of at least 0) |
| RegexNfa.ScanMono | Lab2/RegexNFA.py:164-172 | building a tree with more groups already named only adds the same names and never makes a reference undefined |
| RegexNfa.ScanAgain | Lab2/RegexNFA.py:156-157 | rebuilding the child of `REPEAT` finds every reference it found the first time |
| RegexNfa.NfaConstructor.constructor | Lab2/RegexNFA.py:84-85 | no group is named yet |
| RegexNfa.NfaConstructor.Build | Lab2/RegexNFA.py:87-175 | `build` fails with `ValueError` exactly when a reference names a group not defined before it, in tree order (and on `GROUP`); otherwise it returns a fragment over fresh states whose end is its only final state, records every group in the tree, and leaves earlier states alone; the ghost derivation it returns satisfies `Derives`, which fixes for each kind of node the exact state list, fragment and recorded groups the build produces from those of its children |
| RegexNfa.NfaConstructor.BuildLeaf | Lab2/RegexNFA.py:89-172 | `CHAR` and `REPEAT` 0 give two fresh states joined by one edge; a reference fails with `ValueError` when its group is not recorded, and otherwise returns a clone of the recorded fragment |
| RegexNfa.NfaConstructor.BuildWrapped | Lab2/RegexNFA.py:121-141 | `KLEENE` and `OPTIONAL` fail exactly when the child does; otherwise the child's states are kept, its end gets the ε-edges back to its start (`KLEENE` only) and to the new end, and a fresh start with ε-edges to the child's start and the new end is appended with the final new end, as `Derives` prescribes |
| RegexNfa.NfaConstructor.BuildNamedGroup | Lab2/RegexNFA.py:164-167 | the group's fragment and states are the child's, unchanged, and the fragment is recorded under the group's name, replacing an earlier group of that name |
| RegexNfa.NfaConstructor.BuildConcat | Lab2/RegexNFA.py:96-108 | the children are built in order, each on the states the previous one left; each end is linked by ε to the next start and stops being final; the fragment runs from the first start to the last end; the first failure ends the build with its error |
| RegexNfa.NfaConstructor.ChainChild | Lab2/RegexNFA.py:102-106 | one round of the `CONCAT` and `REPEAT` loops: the next child is built on what the chain left and the chain's end is linked by ε to its start, or its error is reported |
| RegexNfa.NfaConstructor.BuildRepeat | Lab2/RegexNFA.py:143-162 | the child is built the given number of times, each time with fresh states, and the copies are chained like `CONCAT` |
| RegexNfa.NfaConstructor.BuildAlt | Lab2/RegexNFA.py:110-119 | a fresh start and end come first; each branch is built on what the previous one left, entered from the start by ε, and its end gets an ε-edge to the shared end and stops being final; the shared end is the only final state; the first failure ends the build |
| RegexNfa.NfaConstructor.AltChild | Lab2/RegexNFA.py:113-118 | one round of the `ALT` loop: the branch is built and linked between the shared start and end, or its error is reported |
| RegexNfa.CharDerives | Lab2/RegexNFA.py:89-94 | the two states `CHAR` appends are its derivation |
| RegexNfa.EmptyRepeatDerives | Lab2/RegexNFA.py:146-150 | the two states `REPEAT` 0 appends are its derivation |
| RegexNfa.RefDerives | Lab2/RegexNFA.py:169-172 | a clone of the recorded group's fragment is a reference's derivation |
| RegexNfa.WrappedDerives | Lab2/RegexNFA.py:121-141 | the `KLEENE` or `OPTIONAL` wiring around a derived child is its derivation |
| RegexNfa.GroupDerives | Lab2/RegexNFA.py:164-167 | a derived child recorded under the group's name is the group's derivation |
| RegexNfa.ChainNext | Lab2/RegexNFA.py:102-106 | building one more child on what the chain left and linking the chain's end to its start extends the chain by that child |
| RegexNfa.ChainDerives | Lab2/RegexNFA.py:96-162 | a chain of all the children (`CONCAT`) or of `n` builds of the child (`REPEAT`) with its last end final is the node's derivation |
| RegexNfa.AltNext | Lab2/RegexNFA.py:113-118 | building one more branch and linking it between the shared start and end extends the `ALT` by that branch |
| RegexNfa.AltDerives | Lab2/RegexNFA.py:110-119 | all branches linked, with the shared end marked final, is the `ALT`'s derivation |
| RegexDfa.Dfa.constructor | Lab2/RegexDFA.py:33-35 | an automaton holds a start state and its list of states, every transition leading to a listed state |
| RegexDfa.Alphabet | Lab2/RegexDFA.py:111-113 | the alphabet is every symbol on which some state has a transition, and only those |
| RegexDfa.RunAppend | Lab2/RegexDFA.py:158-165 | reading `u` and then `v` is reading `u + v`, and a stuck run stays stuck |
| RegexDfa.RunSnoc | Lab2/RegexDFA.py:161-164 | one more character is one transition from where the prefix led |
| RegexDfa.MatchDfa | Lab2/RegexDFA.py:158-170 | `match_dfa` (and `match_min_dfa`, which calls it) accepts a string exactly when the run from the start reads all of it and ends in a final state |
| RegexDfa.AcceptsEmpty | Lab2/RegexDFA.py:158-165 | the empty string is accepted exactly when the start state is final |
| RegexDfa.RunStaysStuck | Lab2/RegexDFA.py:162-163 | once a prefix has no run, no extension of it is accepted |
| RegexDfa.SearchDfa | Lab2/RegexDFA.py:290-301 | `search_dfa` answers `True` exactly when some non-empty substring of the text is accepted |
| RegexDfa.SearchFrom | Lab2/RegexDFA.py:293-300 | the inner loop finds an accepted non-empty substring starting at its offset exactly when there is one |
| RegexDfa.SearchFindsFullMatch | Lab2/RegexDFA.py:290-301 | a non-empty accepted text is also found by the search, and the empty text is never found |
| SubsetConstruction.Move | Lab2/RegexDFA.py:55-61 | `move` gives exactly the targets of the set's states under the symbol |
| SubsetConstruction.Symbols | Lab2/RegexDFA.py:85-87 | the symbols collected are exactly those of the set's states |
| SubsetConstruction.MoveNonEmpty | Lab2/RegexDFA.py:55-90 | a symbol moves the set somewhere exactly when some state of the set has it |
| SubsetConstruction.StatesBounded | Lab2/RegexDFA.py:94-99 | the construction makes at most as many states as there are sets of NFA states, which is why its loop ends |
| SubsetConstruction.ExpandSymbol | Lab2/RegexDFA.py:89-101 | one symbol of the current state: its transition leads to the state for the ε-closure of the move, created `q<n>` when that closure was not met before |
| SubsetConstruction.Expand | Lab2/RegexDFA.py:84-101 | processing one queued state gives it a transition on each of its symbols, to the state for the closure of the move |
| SubsetConstruction.NfaToDfa | Lab2/RegexDFA.py:64-103 | `nfa_to_dfa` yields a well-formed automaton whose start stands for the ε-closure of the NFA's start, whose states stand for distinct sets, each final exactly when a member is, and whose transitions follow move-then-close |
| SubsetConstruction.SimFunctional | Lab2/RegexDFA.py:64-103 | simulating the NFA on sets of states is deterministic |
| SubsetConstruction.RunSimulates | Lab2/RegexDFA.py:89-101 | a run of the constructed automaton tracks the set simulation of the NFA, and gets stuck exactly when the simulated set becomes empty |
| SubsetConstruction.SubsetLanguage | Lab2/RegexDFA.py:64-103 | the constructed automaton accepts exactly the strings the NFA accepts |
| Minimize.IndexMap | Lab2/RegexDFA.py:118-133 | `state_to_partition` maps each state to the index of the group holding it |
| Minimize.CountBound | Lab2/RegexDFA.py:121-133 | there are never more non-empty groups than states, which bounds the number of passes |
| Minimize.SplitGroup | Lab2/RegexDFA.py:125-131 | one group is split into non-empty, disjoint buckets that cover it, each holding states of one signature |
| Minimize.Refine | Lab2/RegexDFA.py:122-132 | one pass replaces each group by its signature buckets, in order, and reports whether any group split |
| Minimize.Refinement | Lab2/RegexDFA.py:111-133 | the loop ends with a partition of the states into non-empty groups that never mix final and non-final states and in which every group has one signature |
| Minimize.InitialPartition | Lab2/RegexDFA.py:115-117 | the first partition is the final states and, when there are any, the non-final ones |
| Minimize.PassKeeps | Lab2/RegexDFA.py:121-133 | a pass keeps the partition, a pass that split something has strictly more groups, and a pass that split nothing leaves the partition stable |
| Minimize.SameSignatureActsLike | Lab2/RegexDFA.py:127-150 | two states with one signature have transitions on the same symbols into the same groups, so either can stand for the group |
| Minimize.Quotient | Lab2/RegexDFA.py:135-150 | one state `mq<i>` per group, copying a representative's final flag, with every transition redirected to the target's group |
| Minimize.QuotientRun | Lab2/RegexDFA.py:135-153 | a run of the minimised automaton stays in the group of the original run, and gets stuck exactly when the original does |
| Minimize.QuotientAccepts | Lab2/RegexDFA.py:135-153 | the minimised automaton accepts from a group exactly what the original accepts from its states |
| Minimize.MinimizeDfa | Lab2/RegexDFA.py:106-155 | `minimize_dfa` yields one state per block of a partition of the input's states, its start is the block holding the old start, and it accepts exactly the same strings |
| DfaTotal.Complete | Lab2/RegexDFA.py:187-190 | a completed state keeps its transitions and gains one to the trap on each alphabet symbol it lacked |
| DfaTotal.FlipFinals | Lab2/RegexDFA.py:204-205 | every state's final flag is negated and nothing else changes |
| DfaTotal.TotalOfKeeps | Lab2/RegexDFA.py:173-195 | the totalised automaton keeps every name, final flag and transition, and every state, the trap included, has a transition on exactly the observed alphabet |
| DfaTotal.TotalOfShape | Lab2/RegexDFA.py:173-195 | the totalised automaton is well formed, keeps the alphabet and holds a `TRAP` |
| DfaTotal.TotalOfIdempotent | Lab2/RegexDFA.py:173-195 | a second `make_dfa_total` changes nothing |
| DfaTotal.RunOverAlphabet | Lab2/RegexDFA.py:158-195 | in a total automaton a run gets stuck exactly when the string leaves the alphabet |
| DfaTotal.TotalRun | Lab2/RegexDFA.py:173-195 | where the original run exists the totalised one is the same, and where it got stuck the new one ends in the trap or gets stuck |
| DfaTotal.TotalOfAccepts | Lab2/RegexDFA.py:173-195 | totalising keeps the language, since the trap is never final |
| DfaTotal.ComplementAccepts | Lab2/RegexDFA.py:198-206 | the complement accepts exactly the strings over the original alphabet that the original rejects |
| DfaTotal.ComplementTwice | Lab2/RegexDFA.py:198-206 | complementing twice gives back the totalised automaton |
| DfaTotal.CompleteEdges | Lab2/RegexDFA.py:188-190 | the loop over the alphabet completes one state's transitions as `Complete` says |
| DfaTotal.MakeDfaTotal | Lab2/RegexDFA.py:173-195 | `make_dfa_total` rewrites the automaton in place into its totalised form, with the same start and the same language |
| DfaTotal.ComplementDfa | Lab2/RegexDFA.py:198-206 | `complement_dfa` rewrites the automaton in place into the complement, accepting exactly the strings over the original alphabet it used to reject |
| RegexDfa.Run | Lab2/RegexDFA.py:160-164 | reading a string from a state either stops at a missing transition (`None`) or ends at a state of the automaton |
| Minimize.PassShape | Lab2/RegexDFA.py:121-133 | after a refinement pass the groups still partition the states, are non-empty and never mix final with non-final states; a pass that splits something adds a group, and there are never more groups than states, so the loop ends |
| DfaTotal.TotalOfFixed | Lab2/RegexDFA.py:184-193 | an automaton that already has a `TRAP` and a transition on every observed symbol from every state is left as it is |
| DfaIntersect.PairsBounded | Lab2/RegexDFA.py:222-253 | the product never holds two states for one pair, so it has at most as many states as there are pairs, which is why the loop ends |
| DfaIntersect.KeyInjective | Lab2/RegexDFA.py:225-226 | with distinct state names in both inputs, `make_key` tells distinct pairs apart |
| DfaIntersect.ExpandSymbol | Lab2/RegexDFA.py:244-254 | a symbol gets a product transition exactly when both halves have one, to the state of the pair of targets, created when that pair was not met before |
| DfaIntersect.Expand | Lab2/RegexDFA.py:243-254 | one dequeued pair gets its transitions over the common alphabet |
| DfaIntersect.BuildProduct | Lab2/RegexDFA.py:228-254 | the loop yields the product: each state stands for one pair of input states, is final exactly when both are, and has a transition on a symbol exactly when both halves do, to the state of the pair of targets |
| DfaIntersect.IntersectDfa | Lab2/RegexDFA.py:209-256 | `intersect_dfa` yields a well-formed automaton starting at the pair of start states that accepts exactly the strings both inputs accept |
| DfaIntersect.ProductRun | Lab2/RegexDFA.py:239-254 | a product run exists exactly when both halves' runs exist, and ends in the pair of their ends |
| DfaIntersect.ProductAccepts | Lab2/RegexDFA.py:209-256 | the product accepts exactly the strings both automata accept |
| DfaToRegex.PathReach | Lab2/RegexDFA.py:276-282 | every path whose inner states are below `k` is found by the `R[k]` recursion |
| DfaToRegex.ReachPath | Lab2/RegexDFA.py:276-282 | everything the `R[k]` recursion finds is such a path |
| DfaToRegex.WordPath | Lab2/RegexDFA.py:269-282 | the states a successful run visits form a path |
| DfaToRegex.PathWord | Lab2/RegexDFA.py:269-282 | every path is spelled by a string whose run follows it |
| DfaToRegex.Targets | Lab2/RegexDFA.py:270-272 | the symbols leading from a state to `j`, each once |
| DfaToRegex.AltOfEmpty | Lab2/RegexDFA.py:272 | an alternation of symbols is `∅` exactly when every symbol in it is the text `∅` |
| DfaToRegex.Extend | Lab2/RegexDFA.py:279-282 | a new entry is `∅` exactly when the old entry is `∅` and no path passes through `k - 1`; a non-`∅` old entry is kept as its prefix |
| DfaToRegex.PathExprReach | Lab2/RegexDFA.py:267-282 | an entry of `R` is `∅` exactly when there is no path of its kind |
| DfaToRegex.DiagonalNeverEmpty | Lab2/RegexDFA.py:273-274 | the diagonal is never `∅`, on any layer |
| DfaToRegex.Exprs | Lab2/RegexDFA.py:285-286 | the expressions are entries of the start row at final states, none of them `∅`, and there are none exactly when every such entry is `∅` |
| DfaToRegex.Join | Lab2/RegexDFA.py:287 | one expression is returned as it is, and several are joined by bars |
| DfaToRegex.Assemble | Lab2/RegexDFA.py:287 | the result is `∅` exactly when there is no expression |
| DfaToRegex.RegexOfEmpty | Lab2/RegexDFA.py:259-287 | the result is `∅` exactly when no final state can be reached from the start |
| DfaToRegex.RegexEmptyIffNoWord | Lab2/RegexDFA.py:259-287 | over single-character symbols, the result is `∅` exactly when the automaton accepts no string |
| DfaToRegex.BaseRow | Lab2/RegexDFA.py:269-274 | the first loop, for one state, fills its row of layer 0 with the alternation of its symbols to each target and `ε` on the diagonal, and touches nothing else |
| DfaToRegex.BaseLayer | Lab2/RegexDFA.py:269-274 | the first loop fills layer 0 as specified |
| DfaToRegex.LayerRow | Lab2/RegexDFA.py:278-282 | the innermost loop fills one row of layer `k` from layer `k - 1` and touches nothing else |
| DfaToRegex.NextLayer | Lab2/RegexDFA.py:277-282 | the middle loop fills layer `k` from layer `k - 1` |
| DfaToRegex.FillLayers | Lab2/RegexDFA.py:276-282 | after the second phase every entry of `R` is the specified path expression |
| DfaToRegex.Expressions | Lab2/RegexDFA.py:284-286 | the collected expressions are the non-`∅` entries of the start row at final states, in state order |
| DfaToRegex.DfaToRegex | Lab2/RegexDFA.py:259-287 | `dfa_to_regex` returns the specified expression, which is `∅` exactly when no final state can be reached |
| MyRegex.Lookup | Lab2/MyRegex.py:14-15 | `groups.get(key, None)` is `None` exactly when no pair has the key, and otherwise a value stored under it |
| MyRegex.GetMatchesItems | Lab2/MyRegex.py:14-18 | indexing a match result agrees with iterating over its groups |
| MyRegex.ComplementTotalizable | Lab2/MyRegex.py:62-63 | a complemented automaton can be complemented again |
| MyRegex.CompiledDfa.constructor | Lab2/MyRegex.py:39-45 | the compiled pattern keeps every stage, and no minimised automaton is cached yet |
| MyRegex.CompiledDfa.Compile | Lab2/MyRegex.py:39-77 | `compile_dfa` fails exactly with the error the lexer, the parser or the NFA constructor raises; otherwise its automaton is the subset construction of the built NFA |
| MyRegex.CompiledDfa.MinDfa | Lab2/MyRegex.py:47-51 | `min_dfa` minimises on first use and caches the result; later uses return the cached automaton, which accepts what the automaton it came from accepts |
| MyRegex.CompiledDfa.Match | Lab2/MyRegex.py:53-54 | `match` accepts exactly what the unminimised automaton accepts |
| MyRegex.CompiledDfa.Search | Lab2/MyRegex.py:56-57 | `search` finds exactly the texts with an accepted non-empty substring |
| MyRegex.CompiledDfa.ToRegex | Lab2/MyRegex.py:59-60 | `to_regex` is `dfa_to_regex` of the minimised automaton |
| MyRegex.CompiledDfa.ComplementDfa | Lab2/MyRegex.py:62-63 | `complement_dfa` complements the automaton in place, and the cached minimised automaton is left as it was |
| MyRegex.CompiledDfa.Intersect | Lab2/MyRegex.py:65-66 | `intersect` accepts exactly the strings both compiled patterns accept |
| Semantic.Find | Lab3/src/semantic.py:63-72 | a look-up finds nothing exactly when no scope and not the globals hold the key, and a symbol not global comes from some scope |
| Semantic.FindInnermost | Lab3/src/semantic.py:69-71 | the innermost scope holding the key decides, whatever the outer scopes and the globals hold |
| Semantic.FindGlobal | Lab3/src/semantic.py:72 | the globals are consulted only when no scope holds the key |
| Semantic.LookupCaseInsensitive | Lab3/src/semantic.py:68 | names differing only in letter case denote the same symbol |
| Semantic.ArgsError | Lab3/src/semantic.py:225-226 | the arguments of a call pass exactly when each of them has a type |
| Semantic.TypeOfLocal | Lab3/src/semantic.py:249-290 | the type of an expression depends only on what its names look up to |
| Semantic.TypeOfUnderEmptyScope | Lab3/src/semantic.py:249-290 | opening an empty scope changes the type of no expression |
| Semantic.TypeOfShape | Lab3/src/semantic.py:179-290 | only a variable reference can have type `MAP`, and only an `IncDec` has no type |
| Semantic.BinaryTyping | Lab3/src/semantic.py:249-268 | `+` and `-` take and give `INT`; `GT` and `LT` take `INT` and give `BOOLEAN`; `EQ` takes two equal types; `OR` takes `BOOLEAN`; any other operator is an error |
| Semantic.Declared | Lab3/src/semantic.py:52-61 | a declaration changes only the innermost scope |
| Semantic.ScopesAfter | Lab3/src/semantic.py:117-142 | a statement that passes changes only the innermost scope |
| Semantic.DeclareGlobalsOk | Lab3/src/semantic.py:80-94 | the first phase fails exactly when a variable, constant or map repeats a global name (procedures overwrite silently), and otherwise declares exactly the directives' names |
| Semantic.ClashStep | Lab3/src/semantic.py:81-94 | a declaring directive moves its name from the clash condition into the table |
| Semantic.ParamTable | Lab3/src/semantic.py:161-162 | a procedure's first scope holds exactly its lower-cased parameter names |
| Semantic.ParamClash | Lab3/src/semantic.py:161-162 | a parameter already in the table repeats an earlier one |
| Semantic.SemanticAnalyzer.constructor | Lab3/src/semantic.py:33-37 | there are no globals and no open scope |
| Semantic.SemanticAnalyzer.PushScope | Lab3/src/semantic.py:44-46 | one empty scope is opened |
| Semantic.SemanticAnalyzer.PopScope | Lab3/src/semantic.py:48-50 | the innermost scope is closed |
| Semantic.SemanticAnalyzer.Declare | Lab3/src/semantic.py:52-61 | `declare` writes into the innermost scope or, with none open, into the globals; a name already there is an error that changes nothing |
| Semantic.SemanticAnalyzer.Analyze | Lab3/src/semantic.py:74-98 | the first phase's error is `analyze`'s error; otherwise the globals are those the first phase built, and the second phase passes exactly when every directive, with every block nested in it, checks against them (`StmtChecks`) |
| Semantic.SemanticAnalyzer.VisitBlock | Lab3/src/semantic.py:204-210 | a block passes exactly when its statements pass in order in a fresh innermost scope, each against the scopes the previous ones left (`BlockChecks`); a block that passes leaves the scopes as it found them |
| Semantic.SemanticAnalyzer.VisitStmt | Lab3/src/semantic.py:117-245 | a statement passes exactly when it and every block nested in it check (`StmtChecks`), and then changes the scopes as `ScopesAfter` says; a statement without blocks passes exactly when it fits |
| Semantic.SemanticAnalyzer.VisitDecl | Lab3/src/semantic.py:117-142 | a declaration passes exactly when its name is new in the innermost scope and its initializer, typed after the name is declared, has the declared type |
| Semantic.SemanticAnalyzer.VisitProcDecl | Lab3/src/semantic.py:152-165 | a procedure passes exactly when its parameter names are distinct and its body passes one scope inside the scope of its `INT` parameters; it leaves the scopes as it found them |
| Semantic.SemanticAnalyzer.DeclareParams | Lab3/src/semantic.py:160-162 | the parameters are declared as `INT` variables, and fail exactly when two of them share a lower-cased name |
| Semantic.SemanticAnalyzer.VisitAssign | Lab3/src/semantic.py:169-177 | an assignment passes exactly when the name is a declared non-constant variable and the value has its type; a procedure's name fails on reading `is_const` |
| Semantic.SemanticAnalyzer.VisitBranching | Lab3/src/semantic.py:190-202 | `IF` and `WHILE` pass exactly when the condition is `BOOLEAN` and each of their blocks passes in a scope of its own |
| Semantic.ConstAssignInBranchRejected | Lab3/src/semantic.py:169-210 | a constant assigned first thing in an `IF`'s branch fails the whole `IF`, because the block's statements are checked too |
| Semantic.SemanticAnalyzer.VisitMapOp | Lab3/src/semantic.py:234-245 | a map operation passes exactly when its result variable is `BOOLEAN` and both coordinates are `INT`; a procedure's name fails on reading `typ` |
| Interpreter.BinOpSound | Lab3/src/interpreter.py:309-316 | operands of the types the checker demands give a result of the type it assigns |
| Interpreter.OrTruth | Lab3/src/interpreter.py:309-347 | `OR` is truthy exactly when an operand is |
| Interpreter.ComparisonsMirror | Lab3/src/interpreter.py:309-316 | `GT` is `LT` with the operands swapped, and `EQ` is symmetric |
| Interpreter.BumpInverse | Lab3/src/interpreter.py:323-336 | `DEC` by an amount undoes `INC` by it on an integer, and the other way round |
| Interpreter.Innermost | Lab3/src/interpreter.py:375-397 | the frames are searched from the innermost outwards: the one found holds the name and none after it does, and none is found exactly when no frame holds the name |
| Interpreter.InnermostIs | Lab3/src/interpreter.py:375-383 | a frame holding the name with none after it is the one found |
| Interpreter.ValueOfInnermost | Lab3/src/interpreter.py:375-383 | `_lookup` reads the innermost frame holding the name |
| Interpreter.Target | Lab3/src/interpreter.py:385-397 | `_assign` writes into an existing frame |
| Interpreter.AssignedReads | Lab3/src/interpreter.py:385-397 | after `_assign` the name reads the value assigned |
| Interpreter.AssignedKeepsOthers | Lab3/src/interpreter.py:385-397 | `_assign` changes no other name and keeps the number of frames |
| Interpreter.AssignedFresh | Lab3/src/interpreter.py:394-397 | assigning a name no frame holds creates it in the top frame only |
| Interpreter.ValueOfPush | Lab3/src/interpreter.py:375-383 | a pushed frame decides a look-up exactly when it holds the name |
| Interpreter.MappingBinds | Lab3/src/interpreter.py:194-205 | with distinct formals, the first is renamed to its fresh name and each later one to its argument's name |
| Interpreter.MappingKeys | Lab3/src/interpreter.py:194 | `zip` stops at the shorter list: a formal beyond the arguments gets no renaming |
| Interpreter.ByReference | Lab3/src/interpreter.py:202-205 | every later argument holds in the new frame the value it has in the caller |
| Interpreter.ByValue | Lab3/src/interpreter.py:195-200 | the fresh name holds the first argument's value in the caller, unless a later argument is spelled like it |
| Interpreter.ProcTableLast | Lab3/src/interpreter.py:67-70 | a procedure is registered exactly when a directive declares it, and a later declaration replaces an earlier one |
| Interpreter.OrientationKnown | Lab3/src/interpreter.py:246-258 | the robot's own orientation, upper-cased, is always a direction `step` accepts |
| Interpreter.CellOf | Lab3/src/loader.py:33-43 | the cell a map operation reaches is inside the map |
| Interpreter.MapWriteReads | Lab3/src/loader.py:31-48 | after `SET` the cell reads barred and after `CLR` empty, while every other cell and the grid's shape stay as they were |
| Interpreter.PureGlobalsDefine | Lab3/src/interpreter.py:67-74 | a first pass that completes defines exactly the names it started with plus the globals' names, and a global declared by a literal and not redeclared later holds that literal |
| Interpreter.Interpreter.constructor | Lab3/src/interpreter.py:22-39 | one empty global frame, no procedures and no calls |
| Interpreter.Interpreter.Resolve | Lab3/src/interpreter.py:365-373 | `_resolve` renames through the innermost call that maps the name, and leaves it as it is otherwise |
| Interpreter.Interpreter.Lookup | Lab3/src/interpreter.py:375-383 | `_lookup` gives the innermost value, and a missing name is a `RuntimeError` |
| Interpreter.Interpreter.Assign | Lab3/src/interpreter.py:385-397 | `_assign` overwrites the innermost frame holding the name, else creates it in the top frame, and touches nothing else; no frame loses a name |
| Interpreter.Interpreter.BindParams | Lab3/src/interpreter.py:194-205 | the pairs of `zip(params, args)` are bound into the new frame and renaming, and binding fails exactly when an argument is undefined in the caller |
| Interpreter.Interpreter.CallProc | Lab3/src/interpreter.py:164-226 | a call leaves the frames and renamings as it found them; with two or more formals it returns the value the second formal holds in the callee's frames when the body ends, and writes it back into the caller's top frame; otherwise it returns `None` |
| Interpreter.Interpreter.ExecBlock | Lab3/src/interpreter.py:154-162 | a block that completes leaves as many frames as it found |
| Interpreter.Interpreter.ExecStmt | Lab3/src/interpreter.py:92-99 | a statement that completes leaves as many frames as it found, and the procedures as they were |
| Interpreter.Interpreter.ExecDecl | Lab3/src/interpreter.py:101-107 | a local declaration stores the initial value in the top frame, and only there |
| Interpreter.Interpreter.ExecAssign | Lab3/src/interpreter.py:109-112 | an assignment stores the value under the resolved name as `_assign` does |
| Interpreter.Interpreter.ExecWhile | Lab3/src/interpreter.py:135-138 | a loop that completes leaves as many frames as it found and, for a condition without effects, ends with the condition falsy; a condition falsy from the start runs the body never and changes no frame |
| Interpreter.Interpreter.ExecMapOp | Lab3/src/interpreter.py:283-307 | only `BAR`, `EMP`, `SET` and `CLR` complete, and the result variable then holds a boolean, `True` after `SET` and `CLR`; with coordinates free of effects it fails exactly when a coordinate fails, the operation is unknown or the bounds test fails, and otherwise `SET`/`CLR` write exactly the named cell of the grid and the stored answer is `bar`/`emp` of that cell |
| Interpreter.Interpreter.MapOpAt | Lab3/src/interpreter.py:291-307 | once the coordinates are values, the operation fails exactly when it is unknown or the bounds test fails; otherwise the grid becomes `MapWrite` of the cell and the result variable reads `MapAnswer` of it, assigned as `_assign` does |
| Interpreter.Interpreter.MapCell | Lab3/src/interpreter.py:291-300 | `bar` and `emp` read the cell without changing the grid, `SET` and `CLR` write it as `set_cell` and `clr` do |
| Interpreter.Interpreter.ExecRobotOp | Lab3/src/interpreter.py:236-281 | `STEP` moves one cell along the orientation exactly when that cell is free and answers whether it moved; `BACK`, `RIGHT` and `LEFT` turn and answer `True`; `LOOK` counts the free cells ahead; any other name is a `RuntimeError` |
| Interpreter.Interpreter.ResolveArgs | Lab3/src/interpreter.py:142-147 | the arguments must be names, and each is resolved in the caller |
| Interpreter.Interpreter.ExecProcCall | Lab3/src/interpreter.py:140-152 | an unknown procedure is a `RuntimeError`; a call that completes had a known procedure and named arguments |
| Interpreter.Interpreter.Eval | Lab3/src/interpreter.py:318-363 | an expression without effects evaluates as the evaluation function says and changes nothing; any evaluation that completes keeps the number of frames and every name in them |
| Interpreter.Interpreter.EvalIncDec | Lab3/src/interpreter.py:323-336 | `INC`/`DEC` stores the new integer back under the target's resolved name and returns it |
| Interpreter.Interpreter.Run | Lab3/src/interpreter.py:41-90 | a run that completes registers exactly the declared procedures and leaves every global's name in the outermost frame; with initializers free of effects the first pass fails as `PureGlobals` does, and a program of declarations only ends with exactly the globals `PureGlobals` computes |
| Interpreter.Interpreter.Declarations | Lab3/src/interpreter.py:67-74 | the first pass registers the procedures and puts every global's name into the outermost frame, which only gains names; with initializers free of effects it fails as `PureGlobals` does and otherwise leaves exactly the frame `PureGlobals` computes |
| Interpreter.Interpreter.Directives | Lab3/src/interpreter.py:76-79 | the second pass keeps every name of the frames, and a program whose directives are all declarations completes and changes no frame |
| Loader.WorldMap.constructor | Lab3/src/loader.py:25-29 | a map keeps its size, its grid and its exit |
| Loader.WorldMap.SetCell | Lab3/src/loader.py:31-44 | an in-bounds cell is set and reads the new value; outside the map nothing changes and the cell still reads as an obstacle; every other cell reads as before |
| Loader.WorldMap.Clr | Lab3/src/loader.py:37-48 | an in-bounds cell becomes empty, and nothing else changes |
| Loader.ParseDirection | Lab3/src/loader.py:53-58 | a direction is accepted exactly under its own name |
| Loader.ParseDirectionName | Lab3/src/loader.py:53-58 | every direction's name is accepted |
| Loader.TurnTables | Lab3/src/loader.py:53-62 | a left turn undoes a right turn, a back turn is two right turns, and a right turn rotates the step clockwise on the screen |
| Loader.Robot.constructor | Lab3/src/loader.py:64-68 | a new robot stands at the start and faces north |
| Loader.Robot.Step | Lab3/src/loader.py:70-86 | an unknown direction is a `ValueError`; otherwise the robot moves one cell and turns that way exactly when the cell is free, and answers whether it moved |
| Loader.Robot.Back | Lab3/src/loader.py:88-91 | the robot turns around in place and answers `True` |
| Loader.Robot.Right | Lab3/src/loader.py:93-96 | the robot turns a quarter clockwise in place and answers `True` |
| Loader.Robot.Left | Lab3/src/loader.py:98-101 | the robot turns a quarter anticlockwise in place and answers `True` |
| Loader.Robot.Look | Lab3/src/loader.py:103-116 | the count is the number of free cells straight ahead before the first obstacle or the edge |
| Loader.KeepOnly | Lab3/src/loader.py:126 | the filter of the comprehension keeps only lines that are neither blank nor `#` comments |
| Loader.KeptFromKeeps | Lab3/src/loader.py:126 | every kept position holds a line the filter accepts |
| Loader.KeptFromIncreasing | Lab3/src/loader.py:126 | the kept positions are in the order of the file |
| Loader.KeptFromComplete | Lab3/src/loader.py:126 | every line the filter accepts has its position among the kept ones |
| Loader.KeepOnlyAt | Lab3/src/loader.py:126 | the filtered lines are exactly the lines at the kept positions, in order |
| Loader.KeptLinesSelect | Lab3/src/loader.py:124-126 | the loaded lines are `ln.strip()` of the raw lines in order, and every raw line whose stripped text is neither blank nor a comment is among them |
| Loader.SplitFrom | Lab3/src/loader.py:131-140 | `split()` gives non-empty pieces without blanks |
| Loader.SplitGaps | Lab3/src/loader.py:131-140 | the text is the pieces of `split()` in order, with runs of blanks between consecutive pieces and only blanks before the first and after the last |
| Loader.BlankStep | Lab3/src/loader.py:131-140 | a blank ends the word in progress and joins the blanks in front of the following pieces |
| Loader.SplitRuns | Lab3/src/loader.py:131-140 | the pieces of `split()` are the maximal non-blank runs of the line, in order |
| Loader.RowCells | Lab3/src/loader.py:151 | a cell is an obstacle exactly when its character is `1` |
| Loader.LoadLabyrinth | Lab3/src/loader.py:119-156 | loading fails with `ValueError` exactly when the text is malformed; otherwise the map has the declared size, exit and obstacles, and the robot stands at the declared start facing north |
| Loader.BuildGrid | Lab3/src/loader.py:147-151 | every row must have the declared width, and becomes its row of obstacles |
| Solver.DirIndex | Lab3/solver.py:22-27 | a letter of the answer stands for the move of that letter in the direction table |
| Solver.Reverse | Lab3/solver.py:61 | `path.reverse()` puts the letters in the opposite order |
| Solver.Begin | Lab3/solver.py:15-34 | before the loop only the start is visited and queued |
| Solver.TryMove | Lab3/solver.py:42-48 | a neighbour inside the maze, not yet visited and free is marked, linked back to the cell and queued; the queue only grows |
| Solver.ExpandUpTo | Lab3/solver.py:41-48 | the directions are tried in table order and the queue only grows |
| Solver.Steps | Lab3/solver.py:37-48 | each turn of the loop takes the next cell off the queue and stops at the exit |
| Solver.StepsKeepBfs | Lab3/solver.py:37-48 | after any number of turns the queue holds distinct free cells in order of distance, each with a shortest path, and every cell taken off has all its free neighbours queued |
| Solver.QueueBounded | Lab3/solver.py:37-48 | no cell is queued twice, so the queue never outgrows the maze and the loop ends |
| Solver.ExitNotExpanded | Lab3/solver.py:38-40 | the exit is never expanded: the loop stops when it comes off the queue |
| Solver.WhenFound | Lab3/solver.py:37-51 | when the loop stopped at the exit, the exit is visited and the path `prev` leads back along is a shortest one |
| Solver.WhenExhausted | Lab3/solver.py:37-52 | when the queue ran out, the exit was never visited and no path reaches it |
| Solver.ShortestPath | Lab3/solver.py:37-48 | breadth-first order makes the path of a queued cell a shortest one to it |
| Solver.NoneMeansUnreachable | Lab3/solver.py:50-52 | a cell never queued cannot be reached |
| Solver.Expand | Lab3/solver.py:41-48 | the loop over the directions does what the first four turns of `TryMove` do |
| Solver.Move | Lab3/solver.py:42-48 | one direction does what `TryMove` says |
| Solver.ReadBack | Lab3/solver.py:54-60 | following `prev` from the exit collects the letters of the exit's path, last move first |
| Solver.SolveMaze | Lab3/solver.py:8-62 | `solve_maze` returns a path that leads from the start to the exit and is no longer than any other such path, `None` exactly when no path reaches the exit, and `[]` when the start is the exit |
| Text.NatToStringRoundTrip | Lab2/RegexNFA.py:10 | the decimal spelling of a number reads back as the number |
| Text.NatToStringInjective | Lab2/RegexNFA.py:10-11 | distinct counter values give distinct state names |
| Text.Lower | Lab3/src/semantic.py:58-68 | `lower()` maps each character to its lower case and keeps the length |
| Text.LowerIdempotent | Lab3/src/semantic.py:58-68 | a lower-cased key lower-cases to itself |
| Text.Upper | Lab3/src/loader.py:76 | `upper()` maps each character to its upper case and keeps the length |
| Text.Strip | Lab1/RegEx/Regex_Parser.py:17 | `strip()` gives the contiguous middle of the text with only blanks removed before and after it, and neither end of it is a blank |
| Relations.SplitOn | Lab1/RegEx/Regex_Parser.py:17 | `split(',')` gives one more piece than there are commas, none holding a comma |
| Relations.SplitJoin | Lab1/RegEx/Regex_Parser.py:17 | joining the pieces back with commas gives the text |
| Relations.AttributeShape | Lab1/RegEx/Regex_Parser.py:17 | the i-th attribute is the i-th piece between commas with only the blanks at its ends removed, so it holds no comma and has no blank at either end |
| Relations.MergedNames | Lab1/RegEx/Regex_Parser.py:36-48 | the merged list has one name per attribute of the two lists |
| Relations.MergeKeepsNames | Lab1/RegEx/Regex_Parser.py:41-47 | each merged name is its attribute, or the attribute qualified by one of the two relations, and it is left bare exactly when the attribute is met for the first time |
| Relations.MergeDistinct | Lab1/RegEx/Regex_Parser.py:36-48 | with repeat-free lists whose attributes hold no dot, the merged list repeats no name |
| Relations.QualifiedFromSecond | Lab1/RegEx/Regex_Parser.py:42-47 | with repeat-free lists, a qualified name comes from the second list and is qualified by the first relation |
| Relations.MergeCanRepeat | Lab1/RegEx/Regex_Parser.py:36-48 | an attribute already written `r.a` in the second list makes the merged list repeat `r.a` |
| Relations.Registry.constructor | Lab1/RegEx/Regex_Parser.py:4 | the table starts empty |
| Relations.Registry.MergeAttributes | Lab1/RegEx/Regex_Parser.py:36-48 | the loop with `seen` returns exactly the merged names |
| Relations.Registry.Create | Lab1/RegEx/Regex_Parser.py:55-61 | a new name is stored with its attribute list; a name already in the table is an error that changes nothing |
| Relations.Registry.Join | Lab1/RegEx/Regex_Parser.py:63-73 | a missing source is an error, then a taken name is an error, and otherwise the new relation gets the merged attributes; existing relations never change |
| Relations.Registry.Regex | Lab1/RegEx/Regex_Parser.py:51-77 | a `create` line and a `join` line act as `Create` and `Join` say, any other line is reported and changes nothing, and the table is returned |
| SmcParser.SliceBound | Lab1/SMC/SMC_Parser.py:51-64 | a slice bound inside the text is kept, and any bound is clamped into it |
| SmcParser.PySlice | Lab1/SMC/SMC_Parser.py:51-64 | a slice with bounds in order inside the text is that part of it |
| SmcParser.SqlParser.constructor | Lab1/SMC/SMC_Parser.py:5-15 | an empty line, the cursor at 0, the token start at -1, no relations and no parsed names |
| SmcParser.SqlParser.Prepare | Lab1/SMC/SMC_Parser.py:17-24 | a new line with the cursor at its start and no parsed names; the relations survive from line to line |
| SmcParser.SqlParser.Peek | Lab1/SMC/SMC_Parser.py:26-27 | the character under the cursor, or a newline past the end |
| SmcParser.SqlParser.Match | Lab1/SMC/SMC_Parser.py:50-53 | `match` holds exactly when the keyword starts at the cursor |
| SmcParser.SqlParser.Consume | Lab1/SMC/SMC_Parser.py:55-58 | the cursor moves past `1 + more` characters when the last of them is on the line, and otherwise stays |
| SmcParser.SqlParser.ConsumeWhitespace | Lab1/SMC/SMC_Parser.py:46-48 | the cursor moves past spaces only, and stops at a character that is not one |
| SmcParser.SqlParser.TokenStart | Lab1/SMC/SMC_Parser.py:60-61 | the token starts one before the cursor |
| SmcParser.SqlParser.TokenEnd | Lab1/SMC/SMC_Parser.py:63-65 | the token is the text between its start and the cursor with only the blanks at its ends removed, so neither end is a blank |
| SmcParser.SqlParser.TokenIsSlice | Lab1/SMC/SMC_Parser.py:63-65 | a token without blanks at its ends is exactly the text between its start and the cursor |
| SmcParser.SqlParser.SetRelation | Lab1/SMC/SMC_Parser.py:29-32 | the token names the relation being created, and nothing else changes |
| SmcParser.SqlParser.SetRelation1 | Lab1/SMC/SMC_Parser.py:34-36 | the token names the first source of a join, and nothing else changes |
| SmcParser.SqlParser.SetRelation2 | Lab1/SMC/SMC_Parser.py:38-40 | the token names the second source of a join, and nothing else changes |
| SmcParser.SqlParser.AddAttribute | Lab1/SMC/SMC_Parser.py:42-44 | the token is appended to the attributes, and nothing else changes |
| SmcParser.SqlParser.RegisterRelation | Lab1/SMC/SMC_Parser.py:67-73 | the attributes are stored under the relation's name unless it is taken; existing relations never change |
| SmcParser.SqlParser.MergeRelations | Lab1/SMC/SMC_Parser.py:75-84 | with both sources present and the name free, the new relation gets the merged attributes; otherwise nothing changes |
| SmcParser.SqlParser.MergeAttributes | Lab1/SMC/SMC_Parser.py:86-101 | the same merge as the regular-expression front end's, a missing name written `None` |

## Left out

- Interpreter.Interpreter.ExecWhile: a loop that does not finish within the `fuel` bound ends with an `OutOfFuel` error, whereas the Python loop would run forever.
- Interpreter.Interpreter.ExecProcCall: a call nesting deeper than the `fuel` bound ends with `OutOfFuel`. Python would raise `RecursionError` at its own limit instead.
- Interpreter.Interpreter.Run: the `sum` and `fib` example programs of the recursion tests are not proved to compute their results.
- Interpreter.Interpreter.ExecMapOp: which cell is read or written is stated in terms of the coordinates' values only when both coordinates are free of effects, because a coordinate that calls a procedure may itself change the map; `MapOpAt` states it for any evaluated values.
- Interpreter.Interpreter.Run: the values of globals whose initializers have effects (a procedure call, `INC`, `LOOK`) are not stated, only that their names are defined.
- DfaTotal.MakeDfaTotal: it requires that an automaton which already has a state named `TRAP` is total. Otherwise Python's mutation would point missing transitions at a second, unlisted trap state.
- DfaTotal.ComplementDfa: it has the same requirement as `make_dfa_total`, which it calls.
- Solver.SolveMaze: it requires a rectangular grid with the start and the exit inside it. Python's negative-index wrap-around for cells outside the grid is not modelled. The `deque` is a sequence with a head index.
- Reading files in `run`, `load_labyrinth` and the solver's entry point: the model takes the lines of the file as its input. The exit coordinates that `run` reads from the file are not modelled.
- Drawing automata with graphviz, the pygame visualiser, `print` and debug output, and `sys.exit` are not modelled.
- Error messages, including the Russian ones, are paraphrased or kept as plain text. Nothing depends on their exact wording.
- Character classes are ASCII only: `isdigit`, `isalpha`, `\w`, `lower`, `upper` and `strip`. Loader.ParseInt accepts an optional sign and ASCII digits; it does not accept Python's `_` separators or non-ASCII digits.
- The PLY lexer and parser of the robot language are not modelled. The model starts from the syntax tree of `ast_nodes.py`, written as a datatype.
- `match_nfa`, `search_nfa` and `CompiledNFA` are not modelled; matching runs on the DFA. Capture groups are not reported.
- State names and numbers in the subset construction and in minimisation are fixed by one chosen order. Python's set iteration order does not fix them.
- DfaToRegex.DfaToRegex: there is no round-trip from the produced expression back to a language. The string is produced by the code's elimination order, and the model proves only that it is `∅` exactly when no string is accepted.
- The two `re` recognisers of the regular-expression front end are modelled by their results, the `Line` datatype. The SMC-generated state machine (`Parser_sm`) and its driver are not modelled; the model covers the actions they call.
- The messages that `register_relation` and `merge_relations` print are not modelled.
- `Lab2/main.py`, `Lab2/tests.py` and the Lab3 test files are not part of this model.
