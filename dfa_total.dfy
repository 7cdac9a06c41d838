/** `make_dfa_total` and `complement_dfa` (Lab2/RegexDFA.py). Both change the automaton in place
    and hand back the same object, so they are methods on `Dfa` with no result. */
module DfaTotal {
  import opened Wrappers
  import opened Sets
  import opened RegexDfa

  /** The transitions `t` with every symbol of `alpha` they lack sent to `trap`. */
  function Complete(t: map<string, nat>, alpha: set<string>, trap: nat): (r: map<string, nat>)
    ensures r.Keys == t.Keys + alpha
    ensures forall a | a in t :: r[a] == t[a]
    ensures forall a | a in alpha && a !in t :: r[a] == trap
  {
    map a | a in t.Keys + alpha :: if a in t then t[a] else trap
  }

  /** `all(s.name != trap_state.name for s in dfa.states)` */
  predicate NoTrap(states: seq<DState>) {
    forall k | 0 <= k < |states| :: states[k].name != Trap
  }

  /** Every state has a transition on every symbol of `alpha`. */
  predicate TotalOver(states: seq<DState>, alpha: set<string>) {
    forall k, a | 0 <= k < |states| && a in alpha :: a in states[k].transitions
  }

  /** Every character of `w` is a symbol of `alpha`. */
  predicate OverAlphabet(w: string, alpha: set<string>) {
    forall i | 0 <= i < |w| :: [w[i]] in alpha
  }

  /** The states `make_dfa_total` leaves: each state completed over the observed alphabet with the
      missing symbols sent to index `|states|`, followed by a non-final `TRAP` that loops on every
      symbol, unless some state is already called `TRAP`. */
  ghost function TotalOf(states: seq<DState>): seq<DState>
    requires !NoTrap(states) ==> TotalOver(states, AlphabetOf(states))
  {
    var alpha, n := AlphabetOf(states), |states|;
    var filled := seq(n, k requires 0 <= k < n => states[k].(transitions := Complete(states[k].transitions, alpha, n)));
    if NoTrap(states) then filled + [DState(Trap, {}, Complete(map[], alpha, n), false)] else filled
  }

  /** `state.is_end = not state.is_end` for every state. */
  function FlipFinals(states: seq<DState>): (r: seq<DState>)
    ensures |r| == |states|
    ensures forall k | 0 <= k < |r| :: r[k].isEnd != states[k].isEnd
    ensures forall k | 0 <= k < |r| :: r[k].(isEnd := states[k].isEnd) == states[k]
  {
    seq(|states|, k requires 0 <= k < |states| => states[k].(isEnd := !states[k].isEnd))
  }

  /** Every transition symbol of a state is in the observed alphabet. */
  lemma KeysInAlphabet(states: seq<DState>, k: nat)
    requires k < |states|
    ensures states[k].transitions.Keys <= AlphabetOf(states)
  {
  }

  /** State `k` of the totalised automaton: the original state completed, or the trap. */
  lemma TotalAt(states: seq<DState>, k: nat)
    requires !NoTrap(states) ==> TotalOver(states, AlphabetOf(states))
    ensures |TotalOf(states)| == if NoTrap(states) then |states| + 1 else |states|
    ensures k < |states| ==>
              TotalOf(states)[k] == states[k].(transitions := Complete(states[k].transitions, AlphabetOf(states), |states|))
    ensures k == |states| && NoTrap(states) ==>
              TotalOf(states)[k] == DState(Trap, {}, Complete(map[], AlphabetOf(states), |states|), false)
  {
  }

  /** The totalised automaton keeps every state's name, final flag and transitions, and gives
      every state, the trap included, a transition on exactly the symbols of the original alphabet. */
  lemma TotalOfKeeps(states: seq<DState>)
    requires !NoTrap(states) ==> TotalOver(states, AlphabetOf(states))
    ensures var r, n := TotalOf(states), |states|;
            |r| == (if NoTrap(states) then n + 1 else n)
            && (forall k | 0 <= k < |r| :: r[k].transitions.Keys == AlphabetOf(states))
            && (forall k | 0 <= k < n :: r[k].name == states[k].name && r[k].isEnd == states[k].isEnd)
            && (forall k, a | 0 <= k < n && a in states[k].transitions :: r[k].transitions[a] == states[k].transitions[a])
            && (NoTrap(states) ==> r[n] == DState(Trap, {}, Complete(map[], AlphabetOf(states), n), false))
  {
    var alpha, n := AlphabetOf(states), |states|;
    var r := TotalOf(states);
    TotalAt(states, n);
    forall k | 0 <= k < |r| ensures r[k].transitions.Keys == alpha {
      TotalAt(states, k);
      if k < n {
        KeysInAlphabet(states, k);
      }
    }
    forall k | 0 <= k < n ensures r[k].name == states[k].name && r[k].isEnd == states[k].isEnd {
      TotalAt(states, k);
    }
    forall k, a | 0 <= k < n && a in states[k].transitions ensures r[k].transitions[a] == states[k].transitions[a] {
      TotalAt(states, k);
    }
  }

  /** The totalised automaton is well formed and total over the original alphabet, which it keeps,
      and it holds a `TRAP`. */
  lemma TotalOfShape(states: seq<DState>)
    requires WellFormedNames(states) && (!NoTrap(states) ==> TotalOver(states, AlphabetOf(states)))
    ensures var r, n := TotalOf(states), |states|;
            Closed(r) && NamesUnique(r) && !NoTrap(r)
            && |r| == (if NoTrap(states) then n + 1 else n)
            && (forall k | 0 <= k < |r| :: r[k].transitions.Keys == AlphabetOf(states))
            && AlphabetOf(r) == AlphabetOf(states)
            && (forall k | 0 <= k < n :: r[k].name == states[k].name && r[k].isEnd == states[k].isEnd)
            && (forall k, a | 0 <= k < n && a in states[k].transitions :: r[k].transitions[a] == states[k].transitions[a])
            && (NoTrap(states) ==> r[n] == DState(Trap, {}, Complete(map[], AlphabetOf(states), n), false))
  {
    TotalOfKeeps(states);
    TotalOfClosed(states);
    TotalOfNames(states);
    TotalOfAlphabet(states);
  }

  lemma TotalOfClosed(states: seq<DState>)
    requires WellFormedNames(states) && (!NoTrap(states) ==> TotalOver(states, AlphabetOf(states)))
    ensures Closed(TotalOf(states))
  {
    TotalOfKeeps(states);
    var alpha, n := AlphabetOf(states), |states|;
    var r := TotalOf(states);
    forall k, a | 0 <= k < |r| && a in r[k].transitions ensures r[k].transitions[a] < |r| {
      if k < n && a !in states[k].transitions {
        TotalAt(states, k);
        assert a in alpha;
      }
    }
  }

  lemma TotalOfNames(states: seq<DState>)
    requires WellFormedNames(states) && (!NoTrap(states) ==> TotalOver(states, AlphabetOf(states)))
    ensures NamesUnique(TotalOf(states)) && !NoTrap(TotalOf(states))
  {
    TotalOfKeeps(states);
    var n, r := |states|, TotalOf(states);
    if NoTrap(states) {
      assert r[n].name == Trap;
    } else {
      var k :| 0 <= k < n && states[k].name == Trap;
      assert r[k].name == Trap;
    }
  }

  lemma TotalOfAlphabet(states: seq<DState>)
    requires !NoTrap(states) ==> TotalOver(states, AlphabetOf(states))
    ensures AlphabetOf(TotalOf(states)) == AlphabetOf(states)
  {
    TotalOfKeeps(states);
    var alpha, r := AlphabetOf(states), TotalOf(states);
    forall a | a in AlphabetOf(r) ensures a in alpha {
      var k :| 0 <= k < |r| && a in r[k].transitions;
    }
    assert 0 < |r| && r[0].transitions.Keys == alpha;
    forall b | b in alpha ensures b in AlphabetOf(r) {
      assert b in r[0].transitions;
    }
  }

  /** Completing over symbols the transitions already have changes nothing. */
  lemma CompleteKnown(t: map<string, nat>, alpha: set<string>, trap: nat)
    requires alpha <= t.Keys
    ensures Complete(t, alpha, trap) == t
  {
    var c := Complete(t, alpha, trap);
    assert c.Keys == t.Keys;
    forall a | a in t ensures c[a] == t[a] {
    }
  }

  /** An automaton with a `TRAP` whose states all have a transition on every observed symbol is
      left as it is by `make_dfa_total`. */
  lemma TotalOfFixed(c: seq<DState>)
    requires !NoTrap(c) && forall k | 0 <= k < |c| :: c[k].transitions.Keys == AlphabetOf(c)
    ensures TotalOf(c) == c
  {
    TotalAt(c, 0);
    forall k | 0 <= k < |c| ensures TotalOf(c)[k] == c[k] {
      TotalAt(c, k);
      CompleteKnown(c[k].transitions, AlphabetOf(c), |c|);
    }
  }

  /** `make_dfa_total` is idempotent: a second call finds nothing missing and a `TRAP` in place. */
  lemma TotalOfIdempotent(states: seq<DState>)
    requires WellFormedNames(states) && (!NoTrap(states) ==> TotalOver(states, AlphabetOf(states)))
    ensures var r := TotalOf(states);
            (!NoTrap(r) ==> TotalOver(r, AlphabetOf(r))) && TotalOf(r) == r
  {
    TotalOfShape(states);
    TotalOfFixed(TotalOf(states));
  }

  /** Two automata with the same transitions run alike. */
  lemma {:induction false} SameEdgesRun(a: seq<DState>, b: seq<DState>, q: nat, w: string)
    requires Closed(a) && |a| == |b| && q < |a|
    requires forall k | 0 <= k < |a| :: a[k].transitions == b[k].transitions
    ensures Closed(b) && Run(a, q, w) == Run(b, q, w)
    decreases |w|
  {
    assert forall k, s | 0 <= k < |b| && s in b[k].transitions :: b[k].transitions[s] == a[k].transitions[s];
    if w != [] && [w[0]] in a[q].transitions {
      SameEdgesRun(a, b, a[q].transitions[[w[0]]], w[1..]);
    }
  }

  /** When every state has a transition on exactly the symbols of `alpha`, a run gets stuck
      exactly when the word leaves the alphabet. */
  lemma {:induction false} RunOverAlphabet(states: seq<DState>, alpha: set<string>, q: nat, w: string)
    requires Closed(states) && q < |states|
    requires forall k | 0 <= k < |states| :: states[k].transitions.Keys == alpha
    ensures Run(states, q, w).Some? <==> OverAlphabet(w, alpha)
    decreases |w|
  {
    if w != [] {
      if [w[0]] in alpha {
        RunOverAlphabet(states, alpha, states[q].transitions[[w[0]]], w[1..]);
        if OverAlphabet(w[1..], alpha) {
          forall i | 0 <= i < |w| ensures [w[i]] in alpha {
            if i > 0 { assert w[i] == w[1..][i - 1]; }
          }
        } else {
          var i :| 0 <= i < |w[1..]| && [w[1..][i]] !in alpha;
          assert w[i + 1] == w[1..][i];
        }
      }
    }
  }

  /** From the appended trap, a run either gets stuck or stays in the trap. */
  lemma {:induction false} TrapRun(states: seq<DState>, w: string)
    requires WellFormedNames(states) && NoTrap(states)
    ensures Closed(TotalOf(states)) && |states| < |TotalOf(states)|
    ensures var n := |states|;
            Run(TotalOf(states), n, w) == None || Run(TotalOf(states), n, w) == Some(n)
    decreases |w|
  {
    TotalOfShape(states);
    var r, n := TotalOf(states), |states|;
    if w != [] && [w[0]] in r[n].transitions {
      assert r[n].transitions[[w[0]]] == n;
      TrapRun(states, w[1..]);
    }
  }

  /** Where the original run exists the totalised one is the same; where it gets stuck the
      totalised one gets stuck too or ends in the trap. */
  lemma {:induction false} TotalRun(states: seq<DState>, q: nat, w: string)
    requires WellFormedNames(states) && (!NoTrap(states) ==> TotalOver(states, AlphabetOf(states)))
    requires q < |states|
    ensures Closed(TotalOf(states)) && |states| <= |TotalOf(states)|
    ensures var r := TotalOf(states);
            (Run(states, q, w).Some? ==> Run(r, q, w) == Run(states, q, w))
            && (Run(states, q, w).None? ==> Run(r, q, w).None? || (NoTrap(states) && Run(r, q, w) == Some(|states|)))
    decreases |w|
  {
    TotalOfShape(states);
    var r, n := TotalOf(states), |states|;
    if w != [] {
      var a := [w[0]];
      if a in states[q].transitions {
        TotalRun(states, states[q].transitions[a], w[1..]);
      } else if a in r[q].transitions {
        assert a in AlphabetOf(states);
        assert NoTrap(states);
        assert r[q].transitions[a] == n;
        TrapRun(states, w[1..]);
      }
    }
  }

  /** `make_dfa_total` keeps the language: the trap is never final. */
  lemma TotalOfAccepts(states: seq<DState>, q: nat, w: string)
    requires WellFormedNames(states) && (!NoTrap(states) ==> TotalOver(states, AlphabetOf(states)))
    requires q < |states|
    ensures Closed(TotalOf(states)) && |states| <= |TotalOf(states)|
    ensures Accepts(TotalOf(states), q, w) <==> Accepts(states, q, w)
  {
    TotalOfShape(states);
    TotalRun(states, q, w);
  }

  /** `complement_dfa` accepts exactly the words over the original observed alphabet that the
      original automaton rejects; a word with any other character is rejected by both. */
  lemma ComplementAccepts(states: seq<DState>, q: nat, w: string)
    requires WellFormedNames(states) && (!NoTrap(states) ==> TotalOver(states, AlphabetOf(states)))
    requires q < |states|
    ensures Closed(TotalOf(states)) && |states| <= |TotalOf(states)|
    ensures Accepts(FlipFinals(TotalOf(states)), q, w) <==> OverAlphabet(w, AlphabetOf(states)) && !Accepts(states, q, w)
  {
    TotalOfShape(states);
    var r := TotalOf(states);
    var c := FlipFinals(r);
    SameEdgesRun(r, c, q, w);
    RunOverAlphabet(r, AlphabetOf(states), q, w);
    TotalOfAccepts(states, q, w);
  }

  /** Complementing twice gives back the totalised automaton: the second call finds a total
      automaton with a `TRAP` and only flips the final flags back. */
  lemma ComplementTwice(states: seq<DState>)
    requires WellFormedNames(states) && (!NoTrap(states) ==> TotalOver(states, AlphabetOf(states)))
    ensures var c := FlipFinals(TotalOf(states));
            (!NoTrap(c) ==> TotalOver(c, AlphabetOf(c))) && FlipFinals(TotalOf(c)) == TotalOf(states)
  {
    var r := TotalOf(states);
    var c := FlipFinals(r);
    FlippedTotalIsTotal(states);
    TotalOfFixed(c);
    FlipTwice(r);
  }

  /** The complement of a totalised automaton is total and already holds a `TRAP`. */
  lemma FlippedTotalIsTotal(states: seq<DState>)
    requires WellFormedNames(states) && (!NoTrap(states) ==> TotalOver(states, AlphabetOf(states)))
    ensures var c := FlipFinals(TotalOf(states));
            !NoTrap(c) && TotalOver(c, AlphabetOf(c))
            && forall k | 0 <= k < |c| :: c[k].transitions.Keys == AlphabetOf(c)
  {
    TotalOfShape(states);
    FlipKeeps(TotalOf(states));
  }

  /** Flipping the final flags twice changes nothing. */
  lemma FlipTwice(r: seq<DState>)
    ensures FlipFinals(FlipFinals(r)) == r
  {
    var c := FlipFinals(FlipFinals(r));
    assert forall k | 0 <= k < |r| :: c[k] == r[k];
  }

  /** Flipping final flags keeps names, transitions and the observed alphabet. */
  lemma FlipKeeps(r: seq<DState>)
    ensures var c := FlipFinals(r);
            (forall k | 0 <= k < |c| :: c[k].transitions == r[k].transitions && c[k].name == r[k].name)
            && AlphabetOf(c) == AlphabetOf(r) && NoTrap(c) == NoTrap(r)
  {
    var c := FlipFinals(r);
    assert forall k | 0 <= k < |c| :: c[k].transitions == r[k].transitions && c[k].name == r[k].name;
    forall a ensures a in AlphabetOf(c) <==> a in AlphabetOf(r) {
      if a in AlphabetOf(c) {
        var k :| 0 <= k < |c| && a in c[k].transitions;
      }
      if a in AlphabetOf(r) {
        var k :| 0 <= k < |r| && a in r[k].transitions;
        assert a in c[k].transitions;
      }
    }
  }

  /** One more symbol: a new one goes to the trap, a known one changes nothing. */
  lemma CompleteAdd(t: map<string, nat>, seen: set<string>, a: string, trap: nat)
    ensures var c := Complete(t, seen, trap);
            Complete(t, seen + {a}, trap) == if a in c then c else c[a := trap]
  {
    var c, c' := Complete(t, seen, trap), Complete(t, seen + {a}, trap);
    var e := if a in c then c else c[a := trap];
    assert c'.Keys == e.Keys;
    forall b | b in e ensures c'[b] == e[b] {
    }
  }

  /** `for symbol in alphabet: if symbol not in state.transitions: state.transitions[symbol] = trap_state` */
  method CompleteEdges(t: map<string, nat>, alpha: set<string>, trap: nat) returns (r: map<string, nat>)
    ensures r == Complete(t, alpha, trap)
  {
    r := t;
    var rest := alpha;
    ghost var seen: set<string> := {};
    while rest != {}
      invariant rest <= alpha && seen == alpha - rest
      invariant r == Complete(t, seen, trap)
      decreases |rest|
    {
      var a :| a in rest;
      TakeOne(alpha, rest, seen, a);
      CompleteAdd(t, seen, a, trap);
      if a !in r {
        r := r[a := trap];
      }
      seen, rest := seen + {a}, rest - {a};
    }
    TakeOne(alpha, rest, seen, "");
  }

  /** `make_dfa_total(dfa)`: the trap's self-loops, then each state completed in place, then the
      trap appended unless a state called `TRAP` exists. */
  method MakeDfaTotal(d: Dfa)
    requires d.Valid() && (!NoTrap(d.states) ==> TotalOver(d.states, AlphabetOf(d.states)))
    modifies d
    ensures d.Valid() && d.start == old(d.start) && d.states == TotalOf(old(d.states))
    ensures forall w :: Accepts(d.states, d.start, w) <==> Accepts(old(d.states), old(d.start), w)
  {
    ghost var s0 := d.states;
    var alpha := Alphabet(d.states);
    var n := |d.states|;
    var trapEdges := CompleteEdges(map[], alpha, n);
    var k := 0;
    while k < n
      invariant 0 <= k <= n && |d.states| == n && d.start == old(d.start)
      invariant forall i | 0 <= i < n :: d.states[i] == if i < k then TotalOf(s0)[i] else s0[i]
    {
      var t := CompleteEdges(d.states[k].transitions, alpha, n);
      d.states := d.states[k := d.states[k].(transitions := t)];
      k := k + 1;
    }
    assert forall i | 0 <= i < n :: d.states[i].name == s0[i].name;
    if NoTrap(d.states) {
      d.states := d.states + [DState(Trap, {}, trapEdges, false)];
    }
    TotalOfShape(s0);
    assert d.states == TotalOf(s0);
    forall w ensures Accepts(d.states, d.start, w) <==> Accepts(s0, d.start, w) {
      TotalOfAccepts(s0, d.start, w);
    }
  }

  /** `complement_dfa(dfa)`: totalise, then flip every final flag in place. */
  method ComplementDfa(d: Dfa)
    requires d.Valid() && (!NoTrap(d.states) ==> TotalOver(d.states, AlphabetOf(d.states)))
    modifies d
    ensures d.Valid() && d.start == old(d.start) && d.states == FlipFinals(TotalOf(old(d.states)))
    ensures forall w :: Accepts(d.states, d.start, w) <==>
                          OverAlphabet(w, AlphabetOf(old(d.states))) && !Accepts(old(d.states), old(d.start), w)
  {
    ghost var s0 := d.states;
    MakeDfaTotal(d);
    ghost var s1 := d.states;
    var k := 0;
    while k < |d.states|
      invariant 0 <= k <= |d.states| == |s1| && d.start == old(d.start)
      invariant forall i | 0 <= i < |s1| :: d.states[i] == if i < k then FlipFinals(s1)[i] else s1[i]
    {
      d.states := d.states[k := d.states[k].(isEnd := !d.states[k].isEnd)];
      k := k + 1;
    }
    assert d.states == FlipFinals(s1);
    assert forall i, a | 0 <= i < |d.states| && a in d.states[i].transitions :: d.states[i].transitions[a] == s1[i].transitions[a];
    assert forall i | 0 <= i < |d.states| :: d.states[i].name == s1[i].name;
    forall w ensures Accepts(d.states, d.start, w) <==> OverAlphabet(w, AlphabetOf(s0)) && !Accepts(s0, d.start, w) {
      ComplementAccepts(s0, d.start, w);
    }
  }
}
