/** `epsilon_closure`, `move` and `nfa_to_dfa` (Lab2/RegexDFA.py): the subset construction.

    Every DFA state stands for one ε-closed set of NFA states; the language of the result is the
    language of the NFA as given by the subset simulation `NfaAccepts`. */
module SubsetConstruction {
  import opened Wrappers
  import opened Sets
  import opened RegexNfa
  import opened RegexDfa

  /** The `a`-targets of NFA state `x`. */
  function SymSucc(nfa: seq<NState>, x: nat, a: string): set<nat> {
    if x < |nfa| then SymTargets(nfa[x], a) else {}
  }

  /** What `move(S, a)` computes: the union of the `a`-targets of the members of `S`. */
  ghost function MoveSet(nfa: seq<NState>, s: set<nat>, a: string): set<nat> {
    set x, y | x in s && y in SymSucc(nfa, x, a) :: y
  }

  /** The symbols on the labelled edges of the members of `S`. */
  ghost function SymbolsOf(nfa: seq<NState>, s: set<nat>): set<string> {
    set x, a | x in s && x < |nfa| && a in nfa[x].transitions :: a
  }

  /** `any(state.is_end for state in nfa_states)` */
  predicate AnyFinal(nfa: seq<NState>, s: set<nat>) {
    exists x | x in s :: x < |nfa| && nfa[x].isEnd
  }

  predicate Below(s: set<nat>, n: nat) {
    forall y | y in s :: y < n
  }

  /** `move(states, symbol)` */
  method Move(nfa: seq<NState>, s: set<nat>, a: string) returns (r: set<nat>)
    ensures r == MoveSet(nfa, s, a)
  {
    r := {};
    var rest := s;
    while rest != {}
      invariant rest <= s && r == MoveSet(nfa, s - rest, a)
      decreases |rest|
    {
      var x :| x in rest;
      MoveSetAdd(nfa, s - rest, x, a);
      if x < |nfa| && a in nfa[x].transitions {
        r := r + SymTargets(nfa[x], a);
      }
      assert s - (rest - {x}) == (s - rest) + {x};
      rest := rest - {x};
    }
    assert s - rest == s;
  }

  lemma MoveSetAdd(nfa: seq<NState>, s: set<nat>, x: nat, a: string)
    ensures MoveSet(nfa, s + {x}, a) == MoveSet(nfa, s, a) + SymSucc(nfa, x, a)
    ensures !(x < |nfa| && a in nfa[x].transitions) ==> SymSucc(nfa, x, a) == {}
  {
    forall y | y in MoveSet(nfa, s + {x}, a) ensures y in MoveSet(nfa, s, a) + SymSucc(nfa, x, a) {
      var x' :| x' in s + {x} && y in SymSucc(nfa, x', a);
      if x' != x { assert y in MoveSet(nfa, s, a); }
    }
  }

  lemma SymbolsOfAdd(nfa: seq<NState>, s: set<nat>, x: nat)
    ensures SymbolsOf(nfa, s + {x}) == SymbolsOf(nfa, s) + (if x < |nfa| then nfa[x].transitions.Keys else {})
  {
    forall a | a in SymbolsOf(nfa, s + {x})
      ensures a in SymbolsOf(nfa, s) + (if x < |nfa| then nfa[x].transitions.Keys else {}) {
      var x' :| x' in s + {x} && x' < |nfa| && a in nfa[x'].transitions;
      if x' != x { assert a in SymbolsOf(nfa, s); }
    }
  }

  /** The symbols loop of `nfa_to_dfa`: `symbols.update(s.transitions.keys())` over the members. */
  method Symbols(nfa: seq<NState>, s: set<nat>) returns (r: set<string>)
    ensures r == SymbolsOf(nfa, s)
  {
    r := {};
    var rest := s;
    while rest != {}
      invariant rest <= s && r == SymbolsOf(nfa, s - rest)
      decreases |rest|
    {
      var x :| x in rest;
      SymbolsOfAdd(nfa, s - rest, x);
      if x < |nfa| {
        r := r + nfa[x].transitions.Keys;
      }
      assert s - (rest - {x}) == (s - rest) + {x};
      rest := rest - {x};
    }
    assert s - rest == s;
  }

  /** Every edge list is non-empty, so a symbol of some member always moves somewhere, and a
      symbol of no member moves nowhere. */
  lemma MoveNonEmpty(nfa: seq<NState>, s: set<nat>, a: string)
    requires GraphOk(nfa)
    ensures MoveSet(nfa, s, a) != {} <==> a in SymbolsOf(nfa, s)
  {
    if a in SymbolsOf(nfa, s) {
      var x :| x in s && x < |nfa| && a in nfa[x].transitions;
      assert EdgesBelow(nfa[x], |nfa|);
      var y := nfa[x].transitions[a][0];
      assert y in SymTargets(nfa[x], a);
      assert y in SymSucc(nfa, x, a);
      assert y in MoveSet(nfa, s, a);
    }
    if MoveSet(nfa, s, a) != {} {
      var y :| y in MoveSet(nfa, s, a);
      var x :| x in s && y in SymSucc(nfa, x, a);
      MoveSetAdd(nfa, {}, x, a);
      assert x < |nfa| && a in nfa[x].transitions;
      assert a in SymbolsOf(nfa, s);
    }
  }

  lemma MoveBelow(nfa: seq<NState>, s: set<nat>, a: string)
    requires GraphOk(nfa)
    ensures Below(MoveSet(nfa, s, a), |nfa|)
  {
    forall y | y in MoveSet(nfa, s, a) ensures y < |nfa| {
      var x :| x in s && y in SymSucc(nfa, x, a);
      SuccBelow(nfa, x, false);
      assert y in Succ(nfa, x, false);
    }
  }

  // ----- invariant of the worklist -----

  /** State `k` is `q<k>`, stands for a non-empty set of NFA states, and is final iff a member is. */
  predicate Entry(nfa: seq<NState>, s: DState, k: nat) {
    s.name == Q(k) && s.isEnd == AnyFinal(nfa, s.nfaStates) && s.nfaStates != {} && Below(s.nfaStates, |nfa|)
  }

  /** `state_map` sends each frozen NFA-subset to the one DFA state that stands for it. */
  predicate Indexed(states: seq<DState>, stateMap: map<set<nat>, nat>) {
    (forall s | s in stateMap :: stateMap[s] < |states| && states[stateMap[s]].nfaStates == s)
    && forall k | 0 <= k < |states| :: states[k].nfaStates in stateMap && stateMap[states[k].nfaStates] == k
  }

  /** State `k` has been processed: it has a transition exactly for the symbols of its members,
      and each leads to the state standing for the ε-closure of the move. */
  ghost predicate Expanded(nfa: seq<NState>, states: seq<DState>, k: nat)
    requires k < |states|
  {
    var s := states[k];
    s.transitions.Keys == SymbolsOf(nfa, s.nfaStates)
    && forall a | a in s.transitions ::
         s.transitions[a] < |states| && IsClosureOf(nfa, MoveSet(nfa, s.nfaStates, a), states[s.transitions[a]].nfaStates, true)
  }

  /** The queue is the states from `done` on; they have no transitions yet. */
  ghost predicate Inv(nfa: seq<NState>, states: seq<DState>, stateMap: map<set<nat>, nat>, done: nat) {
    done <= |states| && Indexed(states, stateMap) && Closed(states)
    && (forall k | 0 <= k < |states| :: Entry(nfa, states[k], k))
    && (forall k | 0 <= k < done :: Expanded(nfa, states, k))
    && (forall k | done <= k < |states| :: states[k].transitions == map[])
  }

  /** The result of the subset construction: every state processed. */
  ghost predicate SubsetDfa(nfa: seq<NState>, states: seq<DState>) {
    Closed(states) && (forall k | 0 <= k < |states| :: Entry(nfa, states[k], k) && Expanded(nfa, states, k))
    && forall i, j | 0 <= i < j < |states| :: states[i].nfaStates != states[j].nfaStates
  }

  /** There are at most as many DFA states as sets of NFA states. */
  lemma StatesBounded(nfa: seq<NState>, states: seq<DState>, stateMap: map<set<nat>, nat>)
    requires Indexed(states, stateMap) && forall k | 0 <= k < |states| :: Below(states[k].nfaStates, |nfa|)
    ensures |states| <= |PowerSet(|nfa|)|
  {
    var subsets := seq(|states|, k requires 0 <= k < |states| => states[k].nfaStates);
    assert NoDup(subsets) by {
      forall i, j | 0 <= i < j < |subsets| ensures subsets[i] != subsets[j] {
        assert stateMap[states[i].nfaStates] == i && stateMap[states[j].nfaStates] == j;
      }
    }
    NoDupCard(subsets);
    forall s | s in Elems(subsets) ensures s in PowerSet(|nfa|) {
      var k :| 0 <= k < |subsets| && subsets[k] == s;
      assert s <= Range(|nfa|);
    }
    SubsetCard(Elems(subsets), PowerSet(|nfa|));
  }

  /** Appending a fresh state keeps the processed states processed. */
  lemma ExpandedAppend(nfa: seq<NState>, states: seq<DState>, t: DState, k: nat)
    requires k < |states| && Expanded(nfa, states, k)
    ensures Expanded(nfa, states + [t], k)
  {
    var s := states[k];
    assert (states + [t])[k] == s;
    forall a | a in s.transitions ensures (states + [t])[s.transitions[a]] == states[s.transitions[a]] {
    }
  }

  /** Inside the processing of state `done`: the transitions on the symbols in `keys` are in place. */
  ghost predicate PartialInv(nfa: seq<NState>, states: seq<DState>, stateMap: map<set<nat>, nat>, done: nat,
                             keys: set<string>)
  {
    done < |states| && Indexed(states, stateMap) && Closed(states)
    && (forall k | 0 <= k < |states| :: Entry(nfa, states[k], k))
    && (forall k | 0 <= k < done :: Expanded(nfa, states, k))
    && (forall k | done < k < |states| :: states[k].transitions == map[])
    && states[done].transitions.Keys == keys
    && forall a | a in states[done].transitions ::
         IsClosureOf(nfa, MoveSet(nfa, states[done].nfaStates, a), states[states[done].transitions[a]].nfaStates, true)
  }

  /** A closure not met before becomes a new queued state `q<n>`. */
  lemma AppendSubset(nfa: seq<NState>, states: seq<DState>, stateMap: map<set<nat>, nat>, done: nat,
                     keys: set<string>, c: set<nat>)
    requires PartialInv(nfa, states, stateMap, done, keys) && c !in stateMap && c != {} && Below(c, |nfa|)
    ensures PartialInv(nfa, states + [DState(Q(|states|), c, map[], AnyFinal(nfa, c))],
                       stateMap[c := |states|], done, keys)
  {
    var t := DState(Q(|states|), c, map[], AnyFinal(nfa, c));
    var states' := states + [t];
    forall k | 0 <= k < done ensures Expanded(nfa, states', k) {
      ExpandedAppend(nfa, states, t, k);
    }
    assert forall k | 0 <= k < |states| :: states'[k] == states[k];
  }

  /** Rewriting transitions, but no subset, keeps a processed state processed. */
  lemma ExpandedKept(nfa: seq<NState>, states: seq<DState>, states': seq<DState>, k: nat)
    requires k < |states| == |states'| && states'[k] == states[k] && Expanded(nfa, states, k)
    requires forall i | 0 <= i < |states| :: states'[i].nfaStates == states[i].nfaStates
    ensures Expanded(nfa, states', k)
  {
    var s := states[k];
    forall b | b in s.transitions ensures states'[s.transitions[b]].nfaStates == states[s.transitions[b]].nfaStates {
    }
  }

  /** `current.transitions[symbol] = state_map[closure_frozen]` */
  lemma SetTransition(nfa: seq<NState>, states: seq<DState>, stateMap: map<set<nat>, nat>, done: nat,
                      keys: set<string>, a: string, target: nat)
    requires PartialInv(nfa, states, stateMap, done, keys) && target < |states|
    requires IsClosureOf(nfa, MoveSet(nfa, states[done].nfaStates, a), states[target].nfaStates, true)
    ensures var cur := states[done];
            PartialInv(nfa, states[done := cur.(transitions := cur.transitions[a := target])], stateMap, done, keys + {a})
  {
    var cur := states[done];
    var states' := states[done := cur.(transitions := cur.transitions[a := target])];
    forall i | 0 <= i < |states| && i != done ensures states'[i] == states[i] {
    }
    RewriteCurrentKeeps(nfa, states, states', stateMap, done);
    assert states'[done].transitions.Keys == keys + {a};
    forall b | b in states'[done].transitions
      ensures IsClosureOf(nfa, MoveSet(nfa, states'[done].nfaStates, b), states'[states'[done].transitions[b]].nfaStates, true)
    {
      assert states'[states'[done].transitions[b]].nfaStates == states[states'[done].transitions[b]].nfaStates;
    }
  }

  /** Rewriting the transitions of state `done` alone, into states that exist, keeps the other
      parts of the invariant. */
  lemma RewriteCurrentKeeps(nfa: seq<NState>, states: seq<DState>, states': seq<DState>,
                            stateMap: map<set<nat>, nat>, done: nat)
    requires done < |states| == |states'|
    requires Indexed(states, stateMap) && Closed(states)
    requires forall k | 0 <= k < |states| :: Entry(nfa, states[k], k)
    requires forall k | 0 <= k < done :: Expanded(nfa, states, k)
    requires forall k | done < k < |states| :: states[k].transitions == map[]
    requires forall i | 0 <= i < |states| && i != done :: states'[i] == states[i]
    requires states'[done] == states[done].(transitions := states'[done].transitions)
    requires forall b | b in states'[done].transitions :: states'[done].transitions[b] < |states|
    ensures Indexed(states', stateMap) && Closed(states')
    ensures forall k | 0 <= k < |states'| :: Entry(nfa, states'[k], k)
    ensures forall k | 0 <= k < done :: Expanded(nfa, states', k)
    ensures forall k | done < k < |states'| :: states'[k].transitions == map[]
  {
    assert forall i | 0 <= i < |states| :: states'[i].nfaStates == states[i].nfaStates
                 && states'[i].name == states[i].name && states'[i].isEnd == states[i].isEnd;
    forall k, b | 0 <= k < |states'| && b in states'[k].transitions ensures states'[k].transitions[b] < |states'| {
      if k != done { assert states'[k] == states[k]; }
    }
    forall k | 0 <= k < |states'| ensures Entry(nfa, states'[k], k) {
      assert Entry(nfa, states[k], k);
    }
    forall k | 0 <= k < done ensures Expanded(nfa, states', k) {
      ExpandedKept(nfa, states, states', k);
    }
  }

  /** One symbol of the queued state `done`: move, close, look up or create, link. */
  method ExpandSymbol(nfa: seq<NState>, states: seq<DState>, stateMap: map<set<nat>, nat>, done: nat,
                      ghost keys: set<string>, a: string)
    returns (states': seq<DState>, stateMap': map<set<nat>, nat>)
    requires GraphOk(nfa) && PartialInv(nfa, states, stateMap, done, keys) && a in SymbolsOf(nfa, states[done].nfaStates)
    ensures PartialInv(nfa, states', stateMap', done, keys + {a})
    ensures |states| <= |states'| && states'[0].nfaStates == states[0].nfaStates
    ensures states'[done].nfaStates == states[done].nfaStates
  {
    var s := states[done].nfaStates;
    var moved := Move(nfa, s, a);
    MoveBelow(nfa, s, a);
    MoveNonEmpty(nfa, s, a);
    var closure := Closure(nfa, moved, true);
    assert moved <= closure by {
      ClosureLeast(nfa, moved, closure, true, closure);
    }
    states', stateMap' := states, stateMap;
    if closure !in stateMap' {
      AppendSubset(nfa, states', stateMap', done, keys, closure);
      stateMap' := stateMap'[closure := |states'|];
      states' := states' + [DState(Q(|states'|), closure, map[], AnyFinal(nfa, closure))];
    }
    var target := stateMap'[closure];
    var cur := states'[done];
    SetTransition(nfa, states', stateMap', done, keys, a, target);
    states' := states'[done := cur.(transitions := cur.transitions[a := target])];
  }

  /** The processing of one queued state: the transitions of `states[done]`, with new states
      appended for closures not met before. */
  method Expand(nfa: seq<NState>, states: seq<DState>, stateMap: map<set<nat>, nat>, done: nat)
    returns (states': seq<DState>, stateMap': map<set<nat>, nat>)
    requires GraphOk(nfa) && PartialInv(nfa, states, stateMap, done, {})
    ensures PartialInv(nfa, states', stateMap', done, SymbolsOf(nfa, states[done].nfaStates))
    ensures states'[0].nfaStates == states[0].nfaStates
    ensures states'[done].nfaStates == states[done].nfaStates
  {
    var s := states[done].nfaStates;
    ghost var s0 := states[0].nfaStates;
    var symbols := Symbols(nfa, s);
    states', stateMap' := states, stateMap;
    var rest := symbols;
    ghost var keys: set<string> := {};
    while rest != {}
      invariant PartialInv(nfa, states', stateMap', done, keys)
      invariant rest <= symbols && keys == symbols - rest
      invariant states'[0].nfaStates == s0 && states'[done].nfaStates == s
      decreases |rest|
    {
      var a :| a in rest;
      states', stateMap' := ExpandSymbol(nfa, states', stateMap', done, keys, a);
      TakeOne(symbols, rest, keys, a);
      keys := keys + {a};
      rest := rest - {a};
    }
    TakeOne(symbols, rest, keys, "");
  }

  lemma InvToPartial(nfa: seq<NState>, states: seq<DState>, stateMap: map<set<nat>, nat>, done: nat)
    requires Inv(nfa, states, stateMap, done) && done < |states|
    ensures PartialInv(nfa, states, stateMap, done, {})
  {
    assert states[done].transitions == map[];
  }

  lemma PartialToInv(nfa: seq<NState>, states: seq<DState>, stateMap: map<set<nat>, nat>, done: nat)
    requires done < |states|
    requires PartialInv(nfa, states, stateMap, done, SymbolsOf(nfa, states[done].nfaStates))
    ensures Inv(nfa, states, stateMap, done + 1)
  {
    assert Expanded(nfa, states, done);
  }

  /** `nfa_to_dfa(nfa)`: the start state is the ε-closure of the NFA start; each distinct set of
      NFA states gets exactly one state, final iff a member is final, with transitions exactly on
      its members' symbols, each to the ε-closure of the move. */
  method NfaToDfa(nfa: seq<NState>, f: Nfa) returns (d: Dfa)
    requires GraphOk(nfa) && f.start < |nfa|
    ensures fresh(d) && d.Valid() && d.start == 0
    ensures IsClosureOf(nfa, {f.start}, d.states[0].nfaStates, true)
    ensures SubsetDfa(nfa, d.states)
  {
    var startClosure := Closure(nfa, {f.start}, true);
    assert f.start in startClosure by {
      ClosureLeast(nfa, {f.start}, startClosure, true, startClosure);
    }
    var states := [DState(Q(0), startClosure, map[], AnyFinal(nfa, startClosure))];
    var stateMap := map[startClosure := 0];
    var done := 0;
    while done < |states|
      invariant Inv(nfa, states, stateMap, done)
      invariant 0 < |states| && states[0].nfaStates == startClosure
      decreases |PowerSet(|nfa|)| - done
    {
      StatesBounded(nfa, states, stateMap);
      InvToPartial(nfa, states, stateMap, done);
      states, stateMap := Expand(nfa, states, stateMap, done);
      PartialToInv(nfa, states, stateMap, done);
      done := done + 1;
    }
    StatesBounded(nfa, states, stateMap);
    forall i, j | 0 <= i < j < |states| ensures states[i].nfaStates != states[j].nfaStates {
      assert stateMap[states[i].nfaStates] == i;
    }
    forall i, j | 0 <= i < j < |states| ensures states[i].name != states[j].name {
      assert Entry(nfa, states[i], i) && Entry(nfa, states[j], j);
    }
    d := new Dfa(0, states);
  }

  // ----- the language of the result -----

  /** Subset simulation of the NFA: from the set `S`, reading `w` symbol by symbol (move, then
      ε-close) ends in the set `T`. */
  ghost predicate SimFrom(nfa: seq<NState>, s: set<nat>, w: string, t: set<nat>)
    decreases |w|
  {
    if w == [] then t == s
    else exists s' :: IsClosureOf(nfa, MoveSet(nfa, s, [w[0]]), s', true) && SimFrom(nfa, s', w[1..], t)
  }

  /** The NFA accepts `w`: the simulation from the ε-closure of the start ends in a set holding a
      final state. */
  ghost predicate NfaAccepts(nfa: seq<NState>, start: nat, w: string) {
    exists s0, t :: IsClosureOf(nfa, {start}, s0, true) && SimFrom(nfa, s0, w, t) && AnyFinal(nfa, t)
  }

  /** The empty set is its own closure. */
  lemma ClosureOfEmpty(nfa: seq<NState>)
    ensures IsClosureOf(nfa, {}, {}, true)
  {
    assert Grounded(nfa, {}, {}, true, map[], map[]);
  }

  /** From the empty set the simulation stays empty. */
  lemma {:induction false} SimEmpty(nfa: seq<NState>, w: string)
    ensures SimFrom(nfa, {}, w, {})
    decreases |w|
  {
    if w != [] {
      assert MoveSet(nfa, {}, [w[0]]) == {};
      ClosureOfEmpty(nfa);
      SimEmpty(nfa, w[1..]);
    }
  }

  /** The simulation is deterministic. */
  lemma {:induction false} SimFunctional(nfa: seq<NState>, s: set<nat>, w: string, t1: set<nat>, t2: set<nat>)
    requires SimFrom(nfa, s, w, t1) && SimFrom(nfa, s, w, t2)
    ensures t1 == t2
    decreases |w|
  {
    if w != [] {
      var m := MoveSet(nfa, s, [w[0]]);
      var s1 :| IsClosureOf(nfa, m, s1, true) && SimFrom(nfa, s1, w[1..], t1);
      var s2 :| IsClosureOf(nfa, m, s2, true) && SimFrom(nfa, s2, w[1..], t2);
      ClosureUnique(nfa, m, s1, s2, true);
      SimFunctional(nfa, s1, w[1..], t1, t2);
    }
  }

  /** A run of the constructed DFA follows the simulation: it ends in the state standing for the
      simulated set, or it stops exactly when the simulated set becomes empty. */
  lemma {:induction false} RunSimulates(nfa: seq<NState>, states: seq<DState>, k: nat, w: string)
    requires GraphOk(nfa) && SubsetDfa(nfa, states) && k < |states|
    ensures Run(states, k, w).Some? ==> SimFrom(nfa, states[k].nfaStates, w, states[Run(states, k, w).value].nfaStates)
    ensures Run(states, k, w).None? ==> SimFrom(nfa, states[k].nfaStates, w, {})
    decreases |w|
  {
    if w != [] {
      var s := states[k].nfaStates;
      var a := [w[0]];
      assert Expanded(nfa, states, k);
      if a in states[k].transitions {
        var j := states[k].transitions[a];
        RunSimulates(nfa, states, j, w[1..]);
        assert IsClosureOf(nfa, MoveSet(nfa, s, a), states[j].nfaStates, true);
      } else {
        MoveNonEmpty(nfa, s, a);
        assert MoveSet(nfa, s, a) == {};
        ClosureOfEmpty(nfa);
        SimEmpty(nfa, w[1..]);
        assert IsClosureOf(nfa, MoveSet(nfa, s, a), {}, true);
      }
    }
  }

  /** The subset construction preserves the language: the DFA accepts exactly what the NFA
      accepts. */
  lemma SubsetLanguage(nfa: seq<NState>, states: seq<DState>, start: nat, w: string)
    requires GraphOk(nfa) && SubsetDfa(nfa, states) && 0 < |states|
    requires IsClosureOf(nfa, {start}, states[0].nfaStates, true)
    ensures Accepts(states, 0, w) <==> NfaAccepts(nfa, start, w)
  {
    RunSimulates(nfa, states, 0, w);
    var r := Run(states, 0, w);
    if Accepts(states, 0, w) {
      assert Entry(nfa, states[r.value], r.value);
    }
    if NfaAccepts(nfa, start, w) {
      var s0, t :| IsClosureOf(nfa, {start}, s0, true) && SimFrom(nfa, s0, w, t) && AnyFinal(nfa, t);
      ClosureUnique(nfa, {start}, s0, states[0].nfaStates, true);
      if r.Some? {
        SimFunctional(nfa, s0, w, t, states[r.value].nfaStates);
        assert Entry(nfa, states[r.value], r.value);
      } else {
        SimFunctional(nfa, s0, w, t, {});
      }
    }
  }
}
