/** Deterministic automata (Lab2/RegexDFA.py): states, runs, `match_dfa` and `search_dfa`.

    A DFA is an indexed sequence of states; each state maps a symbol to the index of its target,
    and a missing symbol means no transition. */
module RegexDfa {
  import opened Wrappers
  import opened Sets

  /** State names: `q<k>` from the subset construction, `mq<k>` from minimisation, `TRAP` from
      totalisation, and the name pair of a product state. Kept as values rather than rendered text;
      distinct values render to distinct texts. */
  datatype StateName = Q(k: nat) | MQ(k: nat) | Trap | Pair(left: StateName, right: StateName)

  /** `DFAState`: its name, the NFA states it stands for, its transitions and its final flag. */
  datatype DState = DState(name: StateName, nfaStates: set<nat>, transitions: map<string, nat>, isEnd: bool)

  /** Every transition leads to an existing state. */
  predicate Closed(states: seq<DState>) {
    forall k, a | 0 <= k < |states| && a in states[k].transitions :: states[k].transitions[a] < |states|
  }

  predicate NamesUnique(states: seq<DState>) {
    forall i, j | 0 <= i < j < |states| :: states[i].name != states[j].name
  }

  /** Transitions stay inside the automaton and names are distinct. */
  predicate WellFormedNames(states: seq<DState>) {
    Closed(states) && NamesUnique(states)
  }

  /** A usable automaton: the start exists, transitions are closed, names are unique. */
  predicate WellFormedDfa(start: nat, states: seq<DState>) {
    start < |states| && WellFormedNames(states)
  }

  /** `DFA`: the start state and the list of states. */
  class Dfa {
    var start: nat
    var states: seq<DState>

    ghost predicate Valid()
      reads this
    {
      WellFormedDfa(start, states)
    }

    constructor (start: nat, states: seq<DState>)
      requires WellFormedDfa(start, states)
      ensures Valid() && this.start == start && this.states == states
    {
      this.start := start;
      this.states := states;
    }
  }

  /** The observed alphabet: every symbol some state has a transition on. */
  ghost function AlphabetOf(states: seq<DState>): set<string> {
    set k, a | 0 <= k < |states| && a in states[k].transitions :: a
  }

  lemma AlphabetOfSnoc(states: seq<DState>, i: nat)
    requires i < |states|
    ensures AlphabetOf(states[..i + 1]) == AlphabetOf(states[..i]) + states[i].transitions.Keys
  {
    var p := states[..i + 1];
    forall a | a in AlphabetOf(p) ensures a in AlphabetOf(states[..i]) + states[i].transitions.Keys {
      var k :| 0 <= k < |p| && a in p[k].transitions;
      if k < i { assert states[..i][k] == p[k]; }
    }
    forall a | a in AlphabetOf(states[..i]) ensures a in AlphabetOf(p) {
      var k :| 0 <= k < i && a in states[..i][k].transitions;
      assert p[k] == states[..i][k];
    }
    forall a | a in states[i].transitions ensures a in AlphabetOf(p) {
      assert p[i] == states[i];
    }
  }

  /** `alphabet.update(state.transitions.keys())` over all states. */
  method Alphabet(states: seq<DState>) returns (alpha: set<string>)
    ensures alpha == AlphabetOf(states)
    ensures forall k, a | 0 <= k < |states| && a in states[k].transitions :: a in alpha
  {
    alpha := {};
    var i := 0;
    while i < |states|
      invariant 0 <= i <= |states| && alpha == AlphabetOf(states[..i])
    {
      AlphabetOfSnoc(states, i);
      alpha := alpha + states[i].transitions.Keys;
      i := i + 1;
    }
    assert states[..i] == states;
  }

  /** The state reached from `q` by reading the characters of `w` one at a time, or `None` as soon
      as a character has no transition. */
  function Run(states: seq<DState>, q: nat, w: string): (r: Option<nat>)
    requires Closed(states) && q < |states|
    ensures r.Some? ==> r.value < |states|
    decreases |w|
  {
    if w == [] then Some(q)
    else if [w[0]] in states[q].transitions then Run(states, states[q].transitions[[w[0]]], w[1..])
    else None
  }

  /** `w` leads from `q` to a final state. */
  predicate Accepts(states: seq<DState>, q: nat, w: string)
    requires Closed(states) && q < |states|
  {
    var r := Run(states, q, w); r.Some? && states[r.value].isEnd
  }

  /** Reading `u` then `v` is reading `u + v`. */
  lemma {:induction false} RunAppend(states: seq<DState>, q: nat, u: string, v: string)
    requires Closed(states) && q < |states|
    ensures Run(states, q, u + v) == if Run(states, q, u).Some? then Run(states, Run(states, q, u).value, v) else None
    decreases |u|
  {
    if u == [] {
      assert u + v == v;
    } else {
      assert (u + v)[0] == u[0] && (u + v)[1..] == u[1..] + v;
      if [u[0]] in states[q].transitions {
        RunAppend(states, states[q].transitions[[u[0]]], u[1..], v);
      } else {
        assert Run(states, q, u) == None;
      }
    }
  }

  /** One more character: a single step from where the prefix led. */
  lemma RunSnoc(states: seq<DState>, q: nat, u: string, c: char)
    requires Closed(states) && q < |states|
    ensures var p := Run(states, q, u);
            Run(states, q, u + [c]) == if p.Some? && [c] in states[p.value].transitions
                                      then Some(states[p.value].transitions[[c]]) else None
  {
    RunAppend(states, q, u, [c]);
    var p := Run(states, q, u);
    if p.Some? && [c] in states[p.value].transitions {
      assert Run(states, states[p.value].transitions[[c]], []) == Some(states[p.value].transitions[[c]]);
    }
  }

  /** `match_dfa(dfa, string)`: walks the string from the start, fails at the first missing
      transition, and otherwise answers the final flag of the state reached. */
  method MatchDfa(d: Dfa, w: string) returns (r: bool)
    requires d.Valid()
    ensures r == Accepts(d.states, d.start, w)
  {
    var current := d.start;
    var i := 0;
    while i < |w|
      invariant 0 <= i <= |w| && current < |d.states|
      invariant Run(d.states, d.start, w[..i]) == Some(current)
    {
      var c := w[i];
      RunSnoc(d.states, d.start, w[..i], c);
      assert w[..i + 1] == w[..i] + [c];
      if [c] !in d.states[current].transitions {
        RunAppend(d.states, d.start, w[..i + 1], w[i + 1..]);
        assert w[..i + 1] + w[i + 1..] == w;
        return false;
      }
      current := d.states[current].transitions[[c]];
      i := i + 1;
    }
    assert w[..i] == w;
    r := d.states[current].isEnd;
  }

  /** The empty string is accepted exactly when the start state is final. */
  lemma AcceptsEmpty(states: seq<DState>, q: nat)
    requires Closed(states) && q < |states|
    ensures Accepts(states, q, "") <==> states[q].isEnd
  {
    assert Run(states, q, "") == Some(q);
  }

  /** Some non-empty substring of `w` is accepted. */
  ghost predicate FindsSubstring(states: seq<DState>, q: nat, w: string)
    requires Closed(states) && q < |states|
  {
    exists i, j | 0 <= i < j <= |w| :: Accepts(states, q, w[i..j])
  }

  /** Once a prefix has no run, no longer prefix has one. */
  lemma RunStaysStuck(states: seq<DState>, q: nat, u: string, v: string)
    requires Closed(states) && q < |states| && Run(states, q, u).None?
    ensures Run(states, q, u + v).None?
  {
    RunAppend(states, q, u, v);
  }

  /** `search_dfa(dfa, text)`: from every start offset, walks forward and answers `True` as soon
      as a final state is entered after at least one character. */
  method SearchDfa(d: Dfa, text: string) returns (r: bool)
    requires d.Valid()
    ensures r <==> FindsSubstring(d.states, d.start, text)
  {
    var i := 0;
    while i < |text|
      invariant 0 <= i <= |text|
      invariant forall i', j | 0 <= i' < i && i' < j <= |text| :: !Accepts(d.states, d.start, text[i'..j])
    {
      var found := SearchFrom(d, text, i);
      if found {
        return true;
      }
      i := i + 1;
    }
    forall i', j | 0 <= i' < j <= |text| ensures !Accepts(d.states, d.start, text[i'..j]) {
    }
    r := false;
  }

  /** The inner loop of `search_dfa` for one start offset. */
  method SearchFrom(d: Dfa, text: string, i: nat) returns (found: bool)
    requires d.Valid() && i < |text|
    ensures found <==> exists j | i < j <= |text| :: Accepts(d.states, d.start, text[i..j])
  {
    var current := d.start;
    var j := i;
    while j < |text|
      invariant i <= j <= |text| && current < |d.states|
      invariant Run(d.states, d.start, text[i..j]) == Some(current)
      invariant forall k | i < k <= j :: !Accepts(d.states, d.start, text[i..k])
    {
      var c := text[j];
      RunSnoc(d.states, d.start, text[i..j], c);
      assert text[i..j + 1] == text[i..j] + [c];
      if [c] !in d.states[current].transitions {
        forall k | j < k <= |text| ensures !Accepts(d.states, d.start, text[i..k]) {
          RunStaysStuck(d.states, d.start, text[i..j + 1], text[j + 1..k]);
          assert text[i..j + 1] + text[j + 1..k] == text[i..k];
        }
        return false;
      }
      current := d.states[current].transitions[[c]];
      if d.states[current].isEnd {
        assert Accepts(d.states, d.start, text[i..j + 1]);
        return true;
      }
      j := j + 1;
    }
    found := false;
  }

  /** A non-empty full match is also found by the search; the empty text never is. */
  lemma SearchFindsFullMatch(states: seq<DState>, q: nat, w: string)
    requires Closed(states) && q < |states|
    ensures w != "" && Accepts(states, q, w) ==> FindsSubstring(states, q, w)
    ensures !FindsSubstring(states, q, "")
  {
    if w != "" && Accepts(states, q, w) {
      assert w[0..|w|] == w;
    }
  }
}
