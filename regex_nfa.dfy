/** Thompson construction of an NFA from the pattern tree (Lab2/RegexNFA.py).

    The source creates `State` objects whose names come from a process-wide counter. Here
    every state lives in an `Arena`: a state's id is its index, and the counter is the number
    of states created so far, so `S<id>` names are never reused. */
module RegexNfa {
  import opened Wrappers
  import opened Text
  import opened Sets
  import opened RegexToken
  import opened RegexNode

  /** The symbol that `add_transition` files under the ε-edges. */
  const Epsilon: string := "ε"

  /** A state: its labelled edges, its ε-edges, and its final flag. */
  datatype NState = NState(transitions: map<string, seq<nat>>, epsilon: seq<nat>, isEnd: bool)

  /** `NFA(start, end)`: a fragment's entry and exit. */
  datatype Nfa = Nfa(start: nat, end: nat)

  /** A state as `State()` creates it. */
  const Blank: NState := NState(map[], [], false)

  /** The end state of a finished fragment: final, with no edges. */
  const Exit: NState := NState(map[], [], true)

  /** `State.name` of the state with this id. */
  function NameOfState(id: nat): string {
    "S" + NatToString(id)
  }

  /** Names of distinct states differ. */
  lemma StateNamesDistinct(i: nat, j: nat)
    requires i != j
    ensures NameOfState(i) != NameOfState(j)
  {
    if NameOfState(i) == NameOfState(j) {
      assert NameOfState(i)[1..] == NatToString(i);
      assert NameOfState(j)[1..] == NatToString(j);
      NatToStringInjective(i, j);
    }
  }

  /** Every edge of `s` leads below `n`, no labelled edge uses the ε symbol, and no symbol maps
      to an empty list. */
  predicate EdgesBelow(s: NState, n: nat) {
    Epsilon !in s.transitions
    && (forall a | a in s.transitions ::
          |s.transitions[a]| > 0 && forall j | 0 <= j < |s.transitions[a]| :: s.transitions[a][j] < n)
    && (forall j | 0 <= j < |s.epsilon| :: s.epsilon[j] < n)
  }

  predicate GraphOk(states: seq<NState>) {
    forall i | 0 <= i < |states| :: EdgesBelow(states[i], |states|)
  }

  function EpsTargets(s: NState): set<nat> {
    set j | 0 <= j < |s.epsilon| :: s.epsilon[j]
  }

  function SymTargets(s: NState, a: string): set<nat> {
    if a in s.transitions then set j | 0 <= j < |s.transitions[a]| :: s.transitions[a][j] else {}
  }

  function AllTargets(s: NState): set<nat> {
    EpsTargets(s) + set a, j | a in s.transitions && 0 <= j < |s.transitions[a]| :: s.transitions[a][j]
  }

  /** `state.add_transition(symbol, to)` */
  function AddEdge(s: NState, symbol: string, to: nat): NState {
    if symbol == Epsilon then s.(epsilon := s.epsilon + [to])
    else s.(transitions := s.transitions[symbol := (if symbol in s.transitions then s.transitions[symbol] else []) + [to]])
  }

  /** `add_transition` adds exactly one edge: an ε-edge for the ε symbol, otherwise an edge
      under that symbol, and leaves every other edge list and the final flag alone. */
  lemma AddEdgeTargets(s: NState, symbol: string, to: nat)
    ensures AddEdge(s, symbol, to).isEnd == s.isEnd
    ensures symbol == Epsilon ==>
              EpsTargets(AddEdge(s, symbol, to)) == EpsTargets(s) + {to}
              && AddEdge(s, symbol, to).transitions == s.transitions
    ensures symbol != Epsilon ==>
              SymTargets(AddEdge(s, symbol, to), symbol) == SymTargets(s, symbol) + {to}
              && AddEdge(s, symbol, to).epsilon == s.epsilon
              && forall b | b != symbol :: SymTargets(AddEdge(s, symbol, to), b) == SymTargets(s, b)
  {
    var t := AddEdge(s, symbol, to);
    if symbol == Epsilon {
      assert t.epsilon[|s.epsilon|] == to;
      forall x | x in EpsTargets(t) ensures x in EpsTargets(s) + {to} {
        var j :| 0 <= j < |t.epsilon| && t.epsilon[j] == x;
        if j < |s.epsilon| { assert s.epsilon[j] == x; }
      }
      forall x | x in EpsTargets(s) ensures x in EpsTargets(t) {
        var j :| 0 <= j < |s.epsilon| && s.epsilon[j] == x;
        assert t.epsilon[j] == x;
      }
    } else {
      var old_ := if symbol in s.transitions then s.transitions[symbol] else [];
      var nw := t.transitions[symbol];
      assert nw == old_ + [to];
      assert nw[|old_|] == to;
      forall x | x in SymTargets(t, symbol) ensures x in SymTargets(s, symbol) + {to} {
        var j :| 0 <= j < |nw| && nw[j] == x;
        if j < |old_| { assert old_[j] == x; }
      }
      forall x | x in SymTargets(s, symbol) ensures x in SymTargets(t, symbol) {
        var j :| 0 <= j < |old_| && old_[j] == x;
        assert nw[j] == x;
      }
    }
  }

  /** The states in `[lo, hi)` form one finished fragment `f`: its start precedes its end, its end
      is final with no edges, and no other state of the range is final. */
  ghost predicate FragmentIn(states: seq<NState>, f: Nfa, lo: nat, hi: nat) {
    lo <= f.start < f.end < hi <= |states|
    && states[f.end] == Exit
    && forall i | lo <= i < hi :: states[i].isEnd <==> i == f.end
  }

  /** The states created from `lo` on form the fragment `f`. */
  ghost predicate Fragment(states: seq<NState>, f: Nfa, lo: nat) {
    FragmentIn(states, f, lo, |states|)
  }

  /** `b` only appends states to `a`. */
  ghost predicate Grew(a: seq<NState>, b: seq<NState>) {
    |a| <= |b| && b[..|a|] == a
  }

  lemma FragmentKept(a: seq<NState>, b: seq<NState>, f: Nfa, lo: nat, hi: nat)
    requires FragmentIn(a, f, lo, hi) && Grew(a, b)
    ensures FragmentIn(b, f, lo, hi)
  {
    forall i | lo <= i < hi ensures b[i] == a[i] {
      assert b[..|a|][i] == b[i];
    }
  }

  /** All states, with the counter `State._id_counter` being the number of states. */
  class Arena {
    var states: seq<NState>

    ghost predicate Valid()
      reads this
    {
      GraphOk(states)
    }

    constructor ()
      ensures Valid() && states == []
    {
      states := [];
    }

    /** `State()`: a fresh non-final state with no edges, named after the counter. */
    method NewState() returns (id: nat)
      requires Valid()
      modifies this
      ensures Valid() && id == old(|states|) && states == old(states) + [Blank]
    {
      id := |states|;
      states := states + [Blank];
      forall i | 0 <= i < |states| ensures EdgesBelow(states[i], |states|) {
        if i < id { assert states[i] == old(states)[i]; }
      }
    }

    /** `states[from].add_transition(symbol, states[to])` */
    method AddTransition(from: nat, symbol: string, to: nat)
      requires Valid() && from < |states| && to < |states|
      modifies this
      ensures Valid() && states == old(states)[from := AddEdge(old(states)[from], symbol, to)]
    {
      states := states[from := AddEdge(states[from], symbol, to)];
      forall i | 0 <= i < |states| ensures EdgesBelow(states[i], |states|) {
        if i == from {
          var s := old(states)[from];
          if symbol != Epsilon {
            forall a | a in states[i].transitions
              ensures forall j | 0 <= j < |states[i].transitions[a]| :: states[i].transitions[a][j] < |states|
            {
              if a == symbol {
                var l := if symbol in s.transitions then s.transitions[symbol] else [];
                assert states[i].transitions[a] == l + [to];
              }
            }
          }
        }
      }
    }

    /** `states[id].is_end = b` */
    method SetFinal(id: nat, b: bool)
      requires Valid() && id < |states|
      modifies this
      ensures Valid() && states == old(states)[id := old(states)[id].(isEnd := b)]
    {
      states := states[id := states[id].(isEnd := b)];
      assert forall i | 0 <= i < |states| && i != id :: states[i] == old(states)[i];
    }

    /** Replaces a state's edges and flag at once. */
    method SetState(id: nat, s: NState)
      requires Valid() && id < |states| && EdgesBelow(s, |states|)
      modifies this
      ensures Valid() && states == old(states)[id := s]
    {
      states := states[id := s];
      assert forall i | 0 <= i < |states| && i != id :: states[i] == old(states)[i];
    }

    /** `NFA(start, end)`: marks the end final. */
    method MakeNfa(start: nat, end: nat) returns (f: Nfa)
      requires Valid() && start < |states| && end < |states|
      modifies this
      ensures Valid() && f == Nfa(start, end)
      ensures states == old(states)[end := old(states)[end].(isEnd := true)]
    {
      SetFinal(end, true);
      f := Nfa(start, end);
    }
  }

  /** The successors of state `x`: its ε-targets only, or all its targets. */
  function Succ(states: seq<NState>, x: nat, epsOnly: bool): set<nat> {
    if x < |states| then (if epsOnly then EpsTargets(states[x]) else AllTargets(states[x])) else {}
  }

  ghost predicate ClosedUnder(states: seq<NState>, c: set<nat>, epsOnly: bool) {
    forall x {:trigger Succ(states, x, epsOnly)} | x in c :: Succ(states, x, epsOnly) <= c
  }

  /** Every member of `r` outside `s` was reached from an earlier member (`parent`) along an edge. */
  ghost predicate Grounded(states: seq<NState>, s: set<nat>, r: set<nat>, epsOnly: bool,
                           dist: map<nat, nat>, parent: map<nat, nat>) {
    r == dist.Keys && s <= r && parent.Keys == r - s
    && forall x {:trigger parent[x]} | x in parent ::
         parent[x] in r && x in Succ(states, parent[x], epsOnly) && dist[parent[x]] < dist[x]
  }

  /** `r` holds `s`, is closed under the successor relation, and holds only states reachable from `s`. */
  ghost predicate IsClosureOf(states: seq<NState>, s: set<nat>, r: set<nat>, epsOnly: bool) {
    ClosedUnder(states, r, epsOnly) && exists dist, parent :: Grounded(states, s, r, epsOnly, dist, parent)
  }

  lemma {:induction false} GroundedMember(states: seq<NState>, s: set<nat>, r: set<nat>, epsOnly: bool,
                                          dist: map<nat, nat>, parent: map<nat, nat>, c: set<nat>, x: nat)
    requires Grounded(states, s, r, epsOnly, dist, parent) && s <= c && ClosedUnder(states, c, epsOnly)
    requires x in r
    ensures x in c
    decreases dist[x]
  {
    if x !in s {
      GroundedMember(states, s, r, epsOnly, dist, parent, c, parent[x]);
    }
  }

  /** The closure is the least closed set holding `s`. */
  lemma ClosureLeast(states: seq<NState>, s: set<nat>, r: set<nat>, epsOnly: bool, c: set<nat>)
    requires IsClosureOf(states, s, r, epsOnly) && s <= c && ClosedUnder(states, c, epsOnly)
    ensures s <= r <= c
  {
    var dist, parent :| Grounded(states, s, r, epsOnly, dist, parent);
    forall x | x in r ensures x in c {
      GroundedMember(states, s, r, epsOnly, dist, parent, c, x);
    }
  }

  /** So a set has exactly one closure. */
  lemma ClosureUnique(states: seq<NState>, s: set<nat>, r1: set<nat>, r2: set<nat>, epsOnly: bool)
    requires IsClosureOf(states, s, r1, epsOnly) && IsClosureOf(states, s, r2, epsOnly)
    ensures r1 == r2
  {
    ClosureLeast(states, s, r1, epsOnly, r2);
    ClosureLeast(states, s, r2, epsOnly, r1);
  }

  lemma SuccBelow(states: seq<NState>, x: nat, epsOnly: bool)
    requires GraphOk(states)
    ensures forall y | y in Succ(states, x, epsOnly) :: y < |states|
  {
    if x < |states| {
      var s := states[x];
      assert EdgesBelow(s, |states|);
      forall y | y in AllTargets(s) ensures y < |states| {
        if y !in EpsTargets(s) {
          var a, j :| a in s.transitions && 0 <= j < |s.transitions[a]| && s.transitions[a][j] == y;
        }
      }
    }
  }

  /** Reaching a new state `t` from a member `x` keeps the witness maps consistent. */
  lemma GroundedAdd(states: seq<NState>, s: set<nat>, r: set<nat>, epsOnly: bool,
                    dist: map<nat, nat>, parent: map<nat, nat>, x: nat, t: nat)
    requires Grounded(states, s, r, epsOnly, dist, parent) && x in r && t !in r && t in Succ(states, x, epsOnly)
    ensures Grounded(states, s, r + {t}, epsOnly, dist[t := dist[x] + 1], parent[t := x])
  {
    var dist', parent' := dist[t := dist[x] + 1], parent[t := x];
    forall y | y in parent'
      ensures parent'[y] in r + {t} && y in Succ(states, parent'[y], epsOnly) && dist'[parent'[y]] < dist'[y]
    {
      if y != t {
        assert parent'[y] == parent[y] && parent[y] != t;
      }
    }
  }

  /** One step of the closure walk: pops `x` and pushes every successor of `x` not yet seen. */
  method Expand(states: seq<NState>, init: set<nat>, epsOnly: bool, r: set<nat>, stack: seq<nat>,
                ghost dist: map<nat, nat>, ghost parent: map<nat, nat>)
    returns (r': set<nat>, stack': seq<nat>, ghost dist': map<nat, nat>, ghost parent': map<nat, nat>)
    requires GraphOk(states) && stack != [] && Walk(states, init, epsOnly, r, stack, dist, parent)
    ensures Walk(states, init, epsOnly, r', stack', dist', parent')
    ensures (r' == r && |stack'| < |stack|) || |Range(|states|) - r'| < |Range(|states|) - r|
  {
    var x := stack[|stack| - 1];
    var popped := stack[..|stack| - 1];
    PopElems(stack);
    r', stack', dist', parent' := r, popped, dist, parent;
    var succ := Succ(states, x, epsOnly);
    var ts := succ;
    ghost var seen: set<nat> := {};
    SuccBelow(states, x, epsOnly);
    while ts != {}
      invariant ts <= succ && seen == succ - ts && seen <= r'
      invariant r <= r' && forall y | y in r' :: y < |states|
      invariant Elems(popped) <= Elems(stack') <= r' && Grounded(states, init, r', epsOnly, dist', parent')
      invariant forall y | y in r' && y !in Elems(stack') :: y in r
      invariant (r' == r && stack' == popped) || |Range(|states|) - r'| < |Range(|states|) - r|
      decreases |ts|
    {
      var t :| t in ts;
      TakeOne(succ, ts, seen, t);
      ts := ts - {t};
      seen := seen + {t};
      if t !in r' {
        DiffShrinks(Range(|states|), r', t);
        GroundedAdd(states, init, r', epsOnly, dist', parent', x, t);
        ElemsAppend(stack', t);
        r' := r' + {t};
        stack' := stack' + [t];
        dist' := dist'[t := dist'[x] + 1];
        parent' := parent'[t := x];
      }
    }
    TakeOne(succ, ts, seen, x);
    forall y | y in r' && y !in Elems(stack') ensures Succ(states, y, epsOnly) <= r' {
      if y != x {
        assert y in r && y !in Elems(stack);
      }
    }
  }

  /** The last element and the rest make up the stack. */
  lemma PopElems(stack: seq<nat>)
    requires stack != []
    ensures Elems(stack) == Elems(stack[..|stack| - 1]) + {stack[|stack| - 1]}
  {
    ElemsAppend(stack[..|stack| - 1], stack[|stack| - 1]);
    assert stack[..|stack| - 1] + [stack[|stack| - 1]] == stack;
  }

  /** The state of the walk: everything seen is a state, the stack holds seen states, every seen
      state off the stack has all its successors seen, and the witnesses ground every seen state. */
  ghost predicate Walk(states: seq<NState>, init: set<nat>, epsOnly: bool, r: set<nat>, stack: seq<nat>,
                       dist: map<nat, nat>, parent: map<nat, nat>) {
    (forall y | y in r :: y < |states|)
    && Elems(stack) <= r
    && (forall x {:trigger Succ(states, x, epsOnly)} | x in r && x !in Elems(stack) :: Succ(states, x, epsOnly) <= r)
    && Grounded(states, init, r, epsOnly, dist, parent)
  }

  /** The worklist closure shared by `epsilon_closure` (ε-edges only, LIFO stack) and by the
      reachability walk `mark_ends` of `clone_nfa` (all edges). */
  method Closure(states: seq<NState>, init: set<nat>, epsOnly: bool) returns (r: set<nat>)
    requires GraphOk(states) && forall y | y in init :: y < |states|
    ensures IsClosureOf(states, init, r, epsOnly)
    ensures forall y | y in r :: y < |states|
  {
    r := init;
    var stack := SetToSeq(init);
    ghost var dist: map<nat, nat> := map x | x in r :: 0;
    ghost var parent: map<nat, nat> := map[];
    while stack != []
      invariant Walk(states, init, epsOnly, r, stack, dist, parent)
      decreases |Range(|states|) - r|, |stack|
    {
      r, stack, dist, parent := Expand(states, init, epsOnly, r, stack, dist, parent);
    }
    assert IsClosureOf(states, init, r, epsOnly) by {
      assert Grounded(states, init, r, epsOnly, dist, parent);
    }
  }

  /** `[state_map[t] for t in xs]` */
  function MapSeq(m: map<nat, nat>, xs: seq<nat>): (ys: seq<nat>)
    requires forall j | 0 <= j < |xs| :: xs[j] in m
    ensures |ys| == |xs| && forall j | 0 <= j < |xs| :: ys[j] == m[xs[j]]
  {
    seq(|xs|, j requires 0 <= j < |xs| => m[xs[j]])
  }

  /** Every edge of `s` leads into `keys`. */
  predicate TargetsIn(s: NState, keys: set<nat>) {
    (forall a, j | a in s.transitions && 0 <= j < |s.transitions[a]| :: s.transitions[a][j] in keys)
    && forall j | 0 <= j < |s.epsilon| :: s.epsilon[j] in keys
  }

  /** The copy `clone_state` makes of `s`: the same symbols, every target renamed through the
      state map, never final, plus an ε-edge to the new end when `s` was final. */
  function CloneState(s: NState, m: map<nat, nat>, endId: nat): (c: NState)
    requires TargetsIn(s, m.Keys)
    ensures !c.isEnd && c.transitions.Keys == s.transitions.Keys
    ensures |c.epsilon| == |s.epsilon| + (if s.isEnd then 1 else 0)
    ensures s.isEnd ==> c.epsilon[|s.epsilon|] == endId
  {
    NState(map a | a in s.transitions :: MapSeq(m, s.transitions[a]),
           MapSeq(m, s.epsilon) + (if s.isEnd then [endId] else []),
           false)
  }

  /** A state inside the closure under all edges has all its targets inside it. */
  lemma ClosedTargets(states: seq<NState>, r: set<nat>, x: nat)
    requires ClosedUnder(states, r, false) && x in r && x < |states|
    ensures TargetsIn(states[x], r)
  {
    var s := states[x];
    assert Succ(states, x, false) <= r;
    forall a, j | a in s.transitions && 0 <= j < |s.transitions[a]| ensures s.transitions[a][j] in r {
      assert s.transitions[a][j] in AllTargets(s);
    }
    forall j | 0 <= j < |s.epsilon| ensures s.epsilon[j] in r {
      assert s.epsilon[j] in EpsTargets(s);
    }
  }

  /** A copy whose map and end lie below `n` has all its edges below `n`. */
  lemma CloneEdgesBelow(s: NState, m: map<nat, nat>, endId: nat, n: nat)
    requires EdgesBelow(s, n) && TargetsIn(s, m.Keys) && endId < n
    requires forall x | x in m :: m[x] < n
    ensures EdgesBelow(CloneState(s, m, endId), n)
  {
    var c := CloneState(s, m, endId);
    forall j | 0 <= j < |c.epsilon| ensures c.epsilon[j] < n {
      if j < |s.epsilon| {
        assert c.epsilon[j] == MapSeq(m, s.epsilon)[j];
      }
    }
  }

  /** `start` first, then the other members of `reach`, each once. */
  method ListFrom(start: nat, reach: set<nat>) returns (order: seq<nat>)
    requires start in reach
    ensures |order| > 0 && order[0] == start && Elems(order) == reach && NoDup(order)
  {
    var rest := SetToSeq(reach - {start});
    order := [start] + rest;
    forall x | x in reach ensures x in Elems(order) {
      if x != start {
        assert x in Elems(rest);
        var j :| 0 <= j < |rest| && rest[j] == x;
        assert order[j + 1] == x;
      }
    }
    forall x | x in Elems(order) ensures x in reach {
      var j :| 0 <= j < |order| && order[j] == x;
      if j > 0 { assert rest[j - 1] == x; assert x in Elems(rest); }
    }
    forall i, j | 0 <= i < j < |order| ensures order[i] != order[j] {
      if i == 0 { assert order[j] in Elems(rest); } else { assert order[i] == rest[i - 1] && order[j] == rest[j - 1]; }
    }
  }

  /** `m` sends the `j`-th listed original to `lo + j`, and nothing else. */
  ghost predicate Numbered(order: seq<nat>, m: map<nat, nat>, lo: nat) {
    m.Keys == Elems(order) && forall j | 0 <= j < |order| :: order[j] in m && m[order[j]] == lo + j
  }

  /** Step 2 of `clone_nfa`, allocation part: one fresh `State()` per listed original, recorded in
      the state map in list order. */
  method AllocCopies(arena: Arena, order: seq<nat>) returns (m: map<nat, nat>)
    requires arena.Valid() && NoDup(order)
    modifies arena
    ensures arena.Valid() && arena.states == old(arena.states) + seq(|order|, _ => Blank)
    ensures Numbered(order, m, |old(arena.states)|)
  {
    var lo := |arena.states|;
    m := map[];
    var k := 0;
    while k < |order|
      invariant 0 <= k <= |order| && arena.Valid()
      invariant arena.states == old(arena.states) + seq(k, _ => Blank)
      invariant m.Keys == Elems(order[..k])
      invariant forall j | 0 <= j < k :: m[order[j]] == lo + j
    {
      ghost var before := arena.states;
      var id := arena.NewState();
      assert seq(k + 1, _ => Blank) == seq(k, _ => Blank) + [Blank];
      assert forall j | 0 <= j < k :: order[j] != order[k];
      m := m[order[k] := id];
      assert order[..k + 1] == order[..k] + [order[k]];
      ElemsAppend(order[..k], order[k]);
      k := k + 1;
    }
    assert order[..k] == order;
  }

  /** The copies of the listed originals, in list order. */
  function Copies(snap: seq<NState>, order: seq<nat>, m: map<nat, nat>, endId: nat): (cs: seq<NState>)
    requires forall j | 0 <= j < |order| :: order[j] < |snap| && TargetsIn(snap[order[j]], m.Keys)
    ensures |cs| == |order| && forall j | 0 <= j < |order| :: cs[j] == CloneState(snap[order[j]], m, endId)
  {
    seq(|order|, j requires 0 <= j < |order| => CloneState(snap[order[j]], m, endId))
  }

  /** Step 2 of `clone_nfa`, edge part, with step 3 folded in: the copy at `lo + j` receives the
      renamed edges of `order[j]`, and an ε-edge to `endId` when that original was final. */
  method FillCopies(arena: Arena, snap: seq<NState>, order: seq<nat>, m: map<nat, nat>, endId: nat)
    requires arena.Valid() && |arena.states| == endId + 1 && |snap| + |order| == endId
    requires arena.states == snap + seq(|order| + 1, _ => Blank)
    requires forall j | 0 <= j < |order| :: order[j] < |snap| && TargetsIn(snap[order[j]], m.Keys)
    requires forall x | x in m :: m[x] < endId
    modifies arena
    ensures arena.Valid() && arena.states == snap + Copies(snap, order, m, endId) + [Blank]
  {
    var cs := Copies(snap, order, m, endId);
    var lo := |snap|;
    var k := 0;
    while k < |order|
      invariant 0 <= k <= |order| && arena.Valid()
      invariant arena.states == snap + cs[..k] + seq(|order| + 1 - k, _ => Blank)
    {
      assert arena.states[order[k]] == snap[order[k]];
      CloneEdgesBelow(snap[order[k]], m, endId, |arena.states|);
      arena.SetState(lo + k, cs[k]);
      assert arena.states == snap + cs[..k + 1] + seq(|order| - k, _ => Blank) by {
        assert cs[..k + 1] == cs[..k] + [cs[k]];
        assert seq(|order| + 1 - k, _ => Blank) == [Blank] + seq(|order| - k, _ => Blank);
      }
      k := k + 1;
    }
    assert cs[..k] == cs;
  }

  /** `after` is `before` followed by a clone of what `start` reaches: `m` sends each reached
      original to its copy, the copies are consecutive from `|before|`, each copy carries the renamed
      edges of its original, and the last state is the clone's single final end. */
  ghost predicate ClonedFrom(before: seq<NState>, after: seq<NState>, start: nat, f: Nfa, m: map<nat, nat>) {
    Grew(before, after)
    && IsClosureOf(before, {start}, m.Keys, false)
    && |after| == |before| + |m.Keys| + 1 && f == Nfa(|before|, |after| - 1)
    && start in m && m[start] == f.start
    && (forall x | x in m :: |before| <= m[x] < f.end)
    && (forall x, y | x in m && y in m && x != y :: m[x] != m[y])
    && (forall x | x in m :: x < |before| && TargetsIn(before[x], m.Keys)
          && after[m[x]] == CloneState(before[x], m, f.end))
    && Fragment(after, f, |before|)
  }

  /** `clone_nfa(g)`: a fresh copy of every state reachable from `g.start`, all non-final, with
      the edges renamed, followed by one new final end that every copy of a final state reaches
      by an ε-edge. The original states are left as they were. */
  method CloneNfa(arena: Arena, g: Nfa) returns (f: Nfa, stateMap: map<nat, nat>)
    requires arena.Valid() && g.start < |arena.states|
    modifies arena
    ensures arena.Valid() && ClonedFrom(old(arena.states), arena.states, g.start, f, stateMap)
  {
    var snap := arena.states;
    var reach := Closure(arena.states, {g.start}, false);
    var order := ListFrom(g.start, reach);
    stateMap := AllocCopies(arena, order);
    f := FinishClone(arena, snap, g.start, reach, order, stateMap);
  }

  /** The rest of `clone_nfa` once the copies are allocated: the new end state, the renamed edges of
      every copy, and the end marked final. */
  method FinishClone(arena: Arena, snap: seq<NState>, start: nat, reach: set<nat>, order: seq<nat>, m: map<nat, nat>)
    returns (f: Nfa)
    requires arena.Valid() && arena.states == snap + seq(|order|, _ => Blank)
    requires IsClosureOf(snap, {start}, reach, false) && (forall y | y in reach :: y < |snap|)
    requires |order| > 0 && order[0] == start && Elems(order) == reach && NoDup(order) && Numbered(order, m, |snap|)
    modifies arena
    ensures arena.Valid() && ClonedFrom(snap, arena.states, start, f, m)
  {
    var endId := arena.NewState();
    assert arena.states == snap + seq(|order| + 1, _ => Blank);
    CopyPrereqs(snap, reach, order, m, endId);
    FillCopies(arena, snap, order, m, endId);
    f := arena.MakeNfa(|snap|, endId);
    LastSet(snap + Copies(snap, order, m, endId), Blank, Exit);
    assert arena.states == snap + Copies(snap, order, m, endId) + [Exit];
    CloneFacts(snap, arena.states, start, reach, order, m, f);
  }

  /** Replacing the last element. */
  lemma LastSet(a: seq<NState>, x: NState, y: NState)
    ensures (a + [x])[|a| := y] == a + [y]
  {
  }

  lemma CopyPrereqs(snap: seq<NState>, reach: set<nat>, order: seq<nat>, m: map<nat, nat>, endId: nat)
    requires ClosedUnder(snap, reach, false) && (forall y | y in reach :: y < |snap|)
    requires Elems(order) == reach && Numbered(order, m, |snap|) && |snap| + |order| == endId
    ensures forall j | 0 <= j < |order| :: order[j] < |snap| && TargetsIn(snap[order[j]], m.Keys)
    ensures forall x | x in m :: m[x] < endId
  {
    forall j | 0 <= j < |order| ensures order[j] < |snap| && TargetsIn(snap[order[j]], m.Keys) {
      ClosedTargets(snap, reach, order[j]);
    }
    forall x | x in m ensures m[x] < endId {
      var j :| 0 <= j < |order| && order[j] == x;
    }
  }

  lemma CloneFacts(snap: seq<NState>, states: seq<NState>, start: nat, reach: set<nat>, order: seq<nat>,
                   m: map<nat, nat>, f: Nfa)
    requires IsClosureOf(snap, {start}, reach, false) && Elems(order) == reach
    requires f == Nfa(|snap|, |snap| + |order|) && order[0] == start && NoDup(order)
    requires Numbered(order, m, |snap|)
    requires forall j | 0 <= j < |order| :: order[j] < |snap| && TargetsIn(snap[order[j]], m.Keys)
    requires states == snap + Copies(snap, order, m, f.end) + [Exit]
    ensures ClonedFrom(snap, states, start, f, m)
  {
    var endId := f.end;
    assert states[..|snap|] == snap;
    CopiesAt(snap, states, order, m, endId);
    CloneMapFacts(snap, states, order, m, endId);
    CloneMapInjective(order, m, |snap|);
    CloneFragment(snap, states, order, m, endId);
    NoDupCard(order);
    assert m.Keys == reach;
    assert order[0] in m && m[start] == f.start;
  }

  lemma CloneMapFacts(snap: seq<NState>, states: seq<NState>, order: seq<nat>, m: map<nat, nat>, endId: nat)
    requires |snap| + |order| == endId && NoDup(order)
    requires Numbered(order, m, |snap|)
    requires forall j | 0 <= j < |order| :: order[j] < |snap| && TargetsIn(snap[order[j]], m.Keys)
    requires |states| > endId
    requires forall j | 0 <= j < |order| :: states[|snap| + j] == CloneState(snap[order[j]], m, endId)
    ensures forall x | x in m :: |snap| <= m[x] < endId
    ensures forall x | x in m :: x < |snap| && TargetsIn(snap[x], m.Keys) && states[m[x]] == CloneState(snap[x], m, endId)
  {
    forall x | x in m ensures |snap| <= m[x] < endId && x < |snap| && TargetsIn(snap[x], m.Keys)
                            && states[m[x]] == CloneState(snap[x], m, endId) {
      var j := NumberedAt(order, m, |snap|, x);
      CloneMapAt(snap, states, order, m, endId, j);
    }
  }

  /** `CloneMapFacts` for the original listed at `j`. */
  lemma CloneMapAt(snap: seq<NState>, states: seq<NState>, order: seq<nat>, m: map<nat, nat>, endId: nat, j: nat)
    requires |snap| + |order| == endId && j < |order| && order[j] in m && m[order[j]] == |snap| + j
    requires order[j] < |snap| && TargetsIn(snap[order[j]], m.Keys) && |states| > endId
    requires states[|snap| + j] == CloneState(snap[order[j]], m, endId)
    ensures |snap| <= m[order[j]] < endId && states[m[order[j]]] == CloneState(snap[order[j]], m, endId)
  {
  }

  /** Where the copies sit. */
  lemma CopiesAt(snap: seq<NState>, states: seq<NState>, order: seq<nat>, m: map<nat, nat>, endId: nat)
    requires forall j | 0 <= j < |order| :: order[j] < |snap| && TargetsIn(snap[order[j]], m.Keys)
    requires states == snap + Copies(snap, order, m, endId) + [Exit]
    ensures forall j | 0 <= j < |order| :: states[|snap| + j] == CloneState(snap[order[j]], m, endId)
  {
    var cs := Copies(snap, order, m, endId);
    forall j | 0 <= j < |order| ensures states[|snap| + j] == CloneState(snap[order[j]], m, endId) {
      assert states[|snap| + j] == cs[j];
    }
  }

  /** The position in the list of a mapped original. */
  lemma NumberedAt(order: seq<nat>, m: map<nat, nat>, lo: nat, x: nat) returns (j: nat)
    requires Numbered(order, m, lo) && x in m
    ensures j < |order| && order[j] == x && m[x] == lo + j
  {
    assert x in Elems(order);
    j :| 0 <= j < |order| && order[j] == x;
  }

  /** The state map is one-to-one. */
  lemma CloneMapInjective(order: seq<nat>, m: map<nat, nat>, lo: nat)
    requires NoDup(order)
    requires Numbered(order, m, lo)
    ensures forall x, y | x in m && y in m && x != y :: m[x] != m[y]
  {
    forall x, y | x in m && y in m && x != y ensures m[x] != m[y] {
      var i := NumberedAt(order, m, lo, x);
      var j := NumberedAt(order, m, lo, y);
    }
  }

  lemma CloneFragment(snap: seq<NState>, states: seq<NState>, order: seq<nat>, m: map<nat, nat>, endId: nat)
    requires |snap| + |order| == endId && |order| > 0
    requires forall j | 0 <= j < |order| :: order[j] < |snap| && TargetsIn(snap[order[j]], m.Keys)
    requires states == snap + Copies(snap, order, m, endId) + [Exit]
    ensures Fragment(states, Nfa(|snap|, endId), |snap|)
  {
    var lo := |snap|;
    var cs := Copies(snap, order, m, endId);
    forall i | lo <= i < |states| ensures states[i].isEnd <==> i == endId {
      if i < endId { assert states[i] == cs[i - lo]; }
    }
  }

  /** Appending states or rewriting a state at or above `|a|` keeps `a` as a prefix. */
  lemma GrewUpdate(a: seq<NState>, b: seq<NState>, i: nat, s: NState)
    requires Grew(a, b) && |a| <= i < |b|
    ensures Grew(a, b[i := s])
  {
    assert b[i := s][..|a|] == b[..|a|];
  }

  /** An edge added to a state without edges is its only edge. */
  lemma AddEdgeToBare(s: NState, c: string, to: nat)
    requires s.transitions == map[] && s.epsilon == []
    ensures c == Epsilon ==> AddEdge(s, c, to) == s.(epsilon := [to])
    ensures c != Epsilon ==> AddEdge(s, c, to) == s.(transitions := map[c := [to]])
  {
    assert [] + [to] == [to];
  }

  /** `CHAR`: `start --c--> end` on two fresh states. A character equal to the ε symbol becomes an
      ε-edge, since `add_transition` cannot tell them apart. */
  method CharFragment(arena: Arena, c: string) returns (f: Nfa)
    requires arena.Valid()
    modifies arena
    ensures arena.Valid() && f == Nfa(|old(arena.states)|, |old(arena.states)| + 1)
    ensures arena.states == old(arena.states) + [AddEdge(Blank, c, f.end), Exit]
    ensures c == Epsilon ==> arena.states[f.start] == NState(map[], [f.end], false)
    ensures c != Epsilon ==> arena.states[f.start] == NState(map[c := [f.end]], [], false)
    ensures Fragment(arena.states, f, |old(arena.states)|)
  {
    var start := arena.NewState();
    var end := arena.NewState();
    arena.AddTransition(start, c, end);
    AddEdgeToBare(Blank, c, end);
    f := arena.MakeNfa(start, end);
  }

  /** One link of `CONCAT` and `REPEAT`: `cur.end --ε--> next.start`, and `cur.end` stops being final. */
  method Chain(arena: Arena, cur: Nfa, next: Nfa, lo: nat, mid: nat)
    requires arena.Valid() && FragmentIn(arena.states, cur, lo, mid) && Fragment(arena.states, next, mid)
    modifies arena
    ensures arena.Valid() && arena.states == old(arena.states)[cur.end := NState(map[], [next.start], false)]
    ensures Fragment(arena.states, Nfa(cur.start, next.end), lo)
  {
    AddEdgeToBare(Exit, Epsilon, next.start);
    arena.AddTransition(cur.end, Epsilon, next.start);
    arena.SetFinal(cur.end, false);
    assert arena.states == old(arena.states)[cur.end := NState(map[], [next.start], false)];
  }

  /** `KLEENE`: fresh `start` and `end`; `start --ε--> inner.start, end`, and the inner end gets the
      same two ε-edges (the back-edge and the exit) and stops being final. */
  method Star(arena: Arena, inner: Nfa, lo: nat) returns (f: Nfa)
    requires arena.Valid() && Fragment(arena.states, inner, lo)
    modifies arena
    ensures arena.Valid() && f == Nfa(|old(arena.states)|, |old(arena.states)| + 1)
    ensures var loop := NState(map[], [inner.start, f.end], false);
            arena.states == old(arena.states)[inner.end := loop] + [loop, Exit]
    ensures Fragment(arena.states, f, lo)
  {
    var base := arena.states;
    var start := arena.NewState();
    var end := arena.NewState();
    var loop := NState(map[], [inner.start, end], false);
    assert [inner.start] + [end] == [inner.start, end];
    AddEdgeToBare(Blank, Epsilon, inner.start);
    AddEdgeToBare(Exit, Epsilon, inner.start);
    arena.AddTransition(start, Epsilon, inner.start);
    arena.AddTransition(start, Epsilon, end);
    assert arena.states == base + [loop, Blank];
    arena.AddTransition(inner.end, Epsilon, inner.start);
    arena.AddTransition(inner.end, Epsilon, end);
    arena.SetFinal(inner.end, false);
    assert arena.states == base[inner.end := loop] + [loop, Blank];
    f := arena.MakeNfa(start, end);
  }

  /** `OPTIONAL`: fresh `start` and `end`; `start --ε--> inner.start, end`; the inner end reaches
      `end` by ε and stops being final. No back-edge. */
  method Opt(arena: Arena, inner: Nfa, lo: nat) returns (f: Nfa)
    requires arena.Valid() && Fragment(arena.states, inner, lo)
    modifies arena
    ensures arena.Valid() && f == Nfa(|old(arena.states)|, |old(arena.states)| + 1)
    ensures arena.states == old(arena.states)[inner.end := NState(map[], [f.end], false)]
                            + [NState(map[], [inner.start, f.end], false), Exit]
    ensures Fragment(arena.states, f, lo)
  {
    var base := arena.states;
    var start := arena.NewState();
    var end := arena.NewState();
    assert [inner.start] + [end] == [inner.start, end];
    AddEdgeToBare(Blank, Epsilon, inner.start);
    AddEdgeToBare(Exit, Epsilon, end);
    arena.AddTransition(start, Epsilon, inner.start);
    arena.AddTransition(start, Epsilon, end);
    assert arena.states == base + [NState(map[], [inner.start, end], false), Blank];
    arena.AddTransition(inner.end, Epsilon, end);
    arena.SetFinal(inner.end, false);
    assert arena.states == base[inner.end := NState(map[], [end], false)] + [NState(map[], [inner.start, end], false), Blank];
    f := arena.MakeNfa(start, end);
  }

  /** `REPEAT(0)`: two fresh states joined by one ε-edge. */
  method EmptyRepeat(arena: Arena) returns (f: Nfa)
    requires arena.Valid()
    modifies arena
    ensures arena.Valid() && f == Nfa(|old(arena.states)|, |old(arena.states)| + 1)
    ensures arena.states == old(arena.states) + [NState(map[], [f.end], false), Exit]
    ensures Fragment(arena.states, f, |old(arena.states)|)
  {
    var s := arena.NewState();
    var e := arena.NewState();
    AddEdgeToBare(Blank, Epsilon, e);
    arena.AddTransition(s, Epsilon, e);
    f := arena.MakeNfa(s, e);
  }

  /** One branch of `ALT`: `start --ε--> branch.start`, `branch.end --ε--> end`, and the branch
      end stops being final. */
  method AltBranch(arena: Arena, start: nat, end: nat, branch: Nfa)
    requires arena.Valid() && start < |arena.states| && end < |arena.states| && branch.start < |arena.states|
    requires branch.end < |arena.states| && branch.end != start && arena.states[branch.end] == Exit
    modifies arena
    ensures arena.Valid()
    ensures arena.states == old(arena.states)[start := AddEdge(old(arena.states)[start], Epsilon, branch.start)]
                                             [branch.end := NState(map[], [end], false)]
  {
    var s1 := arena.states[start := AddEdge(arena.states[start], Epsilon, branch.start)];
    AddEdgeToBare(Exit, Epsilon, end);
    arena.AddTransition(start, Epsilon, branch.start);
    arena.AddTransition(branch.end, Epsilon, end);
    arena.SetFinal(branch.end, false);
    assert arena.states == s1[branch.end := NState(map[], [end], false)];
  }

  /** The states of an `ALT` under construction, appended to `s0`: its `start` and `end` come first,
      `end` still bare, and no state from `start` on is final. */
  ghost predicate AltOpen(s0: seq<NState>, states: seq<NState>) {
    var lo := |s0|;
    Grew(s0, states) && |states| >= lo + 2 && states[lo + 1] == Blank
    && forall k | lo <= k < |states| :: !states[k].isEnd
  }

  /** Linking one more branch keeps the `ALT` open. */
  lemma AltStep(s0: seq<NState>, before: seq<NState>, s1: seq<NState>, branch: Nfa, s2: seq<NState>)
    requires AltOpen(s0, before) && Grew(before, s1) && Fragment(s1, branch, |before|)
    requires s2 == s1[|s0| := AddEdge(s1[|s0|], Epsilon, branch.start)][branch.end := NState(map[], [|s0| + 1], false)]
    ensures AltOpen(s0, s2)
  {
    var lo := |s0|;
    assert s1[lo + 1] == before[lo + 1] && s1[lo] == before[lo];
    forall k | lo <= k < |s2| ensures !s2[k].isEnd {
      if k < |before| { assert s1[k] == before[k]; }
    }
    GrewUpdate(s0, s1, lo, AddEdge(s1[lo], Epsilon, branch.start));
    GrewUpdate(s0, s1[lo := AddEdge(s1[lo], Epsilon, branch.start)], branch.end, NState(map[], [lo + 1], false));
  }

  /** The nodes `NFAConstructor.build` handles without an interpreter error: a `CHAR` carries a
      string, a `REPEAT` a count, and the unary kinds (and a `REPEAT` above zero) have a child.
      `CONCAT` without children, `GROUP` and references are handled as reported errors. */
  predicate Buildable(n: RegexNode)
    decreases n
  {
    match n.op
    case CHAR => n.value.Str?
    case CONCAT => forall c | c in n.children :: Buildable(c)
    case ALT => forall c | c in n.children :: Buildable(c)
    case KLEENE => |n.children| >= 1 && Buildable(n.children[0])
    case OPTIONAL => |n.children| >= 1 && Buildable(n.children[0])
    case REPEAT => n.value.Num? && (n.value.n > 0 ==> |n.children| >= 1 && Buildable(n.children[0]))
    case NAMED_GROUP => |n.children| >= 1 && Buildable(n.children[0])
    case NAMED_REF => true
    case GROUP => true
  }

  /** Every tree the parser can produce can be handed to the constructor. */
  lemma {:induction false} WellFormedBuildable(n: RegexNode)
    requires WellFormed(n)
    ensures Buildable(n)
    decreases n
  {
    match n.op
    case CONCAT =>
      forall c | c in n.children ensures Buildable(c) { WellFormedBuildable(c); }
    case ALT =>
      forall c | c in n.children ensures Buildable(c) { WellFormedBuildable(c); }
    case CHAR =>
    case GROUP =>
    case NAMED_REF =>
    case _ => WellFormedBuildable(n.children[0]);
  }

  /** `f"{node.name}"` */
  function NameText(name: Option<string>): string {
    if name.Some? then name.value else "None"
  }

  /** What a build run reports: its error, if any, and the group names defined afterwards. */
  datatype Scanned = Scanned(err: Option<Error>, defined: set<Option<string>>)

  /** The outcome of `build` on `n` when the names in `d` are already recorded, in the order the
      constructor visits the tree: left to right, a `REPEAT(0)` child never, and a reference sees
      only groups completed before it. */
  function Scan(n: RegexNode, d: set<Option<string>>): (s: Scanned)
    requires Buildable(n)
    decreases n, 1, 0
  {
    match n.op
    case CHAR => Scanned(None, d)
    case CONCAT =>
      if n.children == [] then Scanned(Some(Error(AssertionError, "Empty CONCAT")), d) else ScanFrom(n, 0, d)
    case ALT => ScanFrom(n, 0, d)
    case KLEENE => Scan(n.children[0], d)
    case OPTIONAL => Scan(n.children[0], d)
    case REPEAT => if n.value.n == 0 then Scanned(None, d) else Scan(n.children[0], d)
    case NAMED_GROUP =>
      var s := Scan(n.children[0], d);
      if s.err.Some? then s else Scanned(None, s.defined + {n.name})
    case NAMED_REF =>
      if n.name in d then Scanned(None, d)
      else Scanned(Some(Error(ValueError, "Undefined group reference: " + NameText(n.name))), d)
    case GROUP => Scanned(Some(Error(ValueError, "Unknown operation: RegexOp.GROUP")), d)
  }

  /** `Scan` over `n.children[i..]`, stopping at the first error. */
  function ScanFrom(n: RegexNode, i: nat, d: set<Option<string>>): (s: Scanned)
    requires i <= |n.children| && forall c | c in n.children :: Buildable(c)
    decreases n, 0, |n.children| - i
  {
    if i == |n.children| then Scanned(None, d)
    else
      var s := Scan(n.children[i], d);
      if s.err.Some? then s else ScanFrom(n, i + 1, s.defined)
  }

  /** A clean run only adds names, and adds the same names whatever was recorded before, as long as
      more was recorded; in particular it stays clean. */
  lemma {:induction false} ScanMono(n: RegexNode, d: set<Option<string>>, d': set<Option<string>>)
    requires Buildable(n) && d <= d' && Scan(n, d).err.None?
    ensures d <= Scan(n, d).defined
    ensures Scan(n, d').err.None? && Scan(n, d').defined == d' + Scan(n, d).defined
    decreases n, 1, 0
  {
    match n.op
    case CHAR =>
    case CONCAT => ScanFromMono(n, 0, d, d');
    case ALT => ScanFromMono(n, 0, d, d');
    case KLEENE => ScanMono(n.children[0], d, d');
    case OPTIONAL => ScanMono(n.children[0], d, d');
    case REPEAT => if n.value.n > 0 { ScanMono(n.children[0], d, d'); }
    case NAMED_GROUP => ScanMono(n.children[0], d, d');
    case NAMED_REF =>
    case GROUP =>
  }

  lemma {:induction false} ScanFromMono(n: RegexNode, i: nat, d: set<Option<string>>, d': set<Option<string>>)
    requires i <= |n.children| && (forall c | c in n.children :: Buildable(c))
    requires d <= d' && ScanFrom(n, i, d).err.None?
    ensures d <= ScanFrom(n, i, d).defined
    ensures ScanFrom(n, i, d').err.None? && ScanFrom(n, i, d').defined == d' + ScanFrom(n, i, d).defined
    decreases n, 0, |n.children| - i
  {
    if i < |n.children| {
      var c := n.children[i];
      ScanMono(c, d, d');
      var e, e' := Scan(c, d).defined, Scan(c, d').defined;
      ScanFromMono(n, i + 1, e, e');
    }
  }

  /** Building the same child again (as `REPEAT` does) reports the same clean outcome. */
  lemma ScanAgain(n: RegexNode, d: set<Option<string>>)
    requires Buildable(n) && Scan(n, d).err.None?
    ensures Scan(n, Scan(n, d).defined) == Scan(n, d)
  {
    ScanMono(n, d, d);
    ScanMono(n, d, Scan(n, d).defined);
  }

  /** `NFAConstructor`: builds fragments into an arena and records named groups (last one wins). */
  /** What a call of `build` did: it only appended states; it failed exactly when the scan
      predicts an error, with that error; on success the recorded names are the predicted ones
      and the new states form the returned fragment. */
  ghost predicate Outcome(r: Result<Nfa>, sc: Scanned, defined: set<Option<string>>,
                          before: seq<NState>, after: seq<NState>) {
    Grew(before, after)
    && (r.Err? <==> sc.err.Some?)
    && (r.Err? ==> r.error == sc.err.value)
    && (r.Ok? ==> defined == sc.defined && Fragment(after, r.value, |before|))
  }

  /** `s` with state `i` replaced, when there is one. */
  function Put(states: seq<NState>, i: nat, s: NState): (r: seq<NState>)
    ensures |r| == |states| && (i < |states| ==> r == states[i := s])
  {
    if i < |states| then states[i := s] else states
  }

  /** A state whose only edge is one ε-edge to `to`: what a linked fragment end becomes. */
  function Link(to: nat): NState {
    NState(map[], [to], false)
  }

  /** How one call of `build` produced its fragment: the node, the states before and after, the
      fragment, the recorded groups before and after, and the same for each child build, in the
      order the children were built. */
  datatype Derivation = Derivation(node: RegexNode, before: seq<NState>, after: seq<NState>, f: Nfa,
                                   g0: map<Option<string>, Nfa>, g1: map<Option<string>, Nfa>,
                                   kids: seq<Derivation>)

  /** The states after `CONCAT`/`REPEAT` built child `j` and linked the previous end to its start. */
  function ChainAfter(kids: seq<Derivation>, j: nat): seq<NState>
    requires j < |kids|
  {
    if j == 0 then kids[0].after else Put(kids[j].after, kids[j - 1].f.end, Link(kids[j].f.start))
  }

  /** The states after `ALT` (whose `start` is `lo` and `end` is `lo + 1`) built branch `j`, added
      `start --ε--> branch.start` and linked the branch end to `end`. */
  function AltAfter(kids: seq<Derivation>, lo: nat, j: nat): seq<NState>
    requires j < |kids|
  {
    var s := kids[j].after;
    Put(Put(s, lo, if lo < |s| then AddEdge(s[lo], Epsilon, kids[j].f.start) else Blank), kids[j].f.end, Link(lo + 1))
  }

  /** The states child `j` was built on: `base` for the first, otherwise what the previous child
      left, after chaining (`alt` is `None`) or after linking into the `ALT` at `alt.value`. */
  function Prior(kids: seq<Derivation>, base: seq<NState>, j: nat, alt: Option<nat>): seq<NState>
    requires j < |kids|
  {
    if j == 0 then base else if alt.Some? then AltAfter(kids, alt.value, j - 1) else ChainAfter(kids, j - 1)
  }

  /** The children were built one after another: each on the states and groups the previous left. */
  predicate Sequenced(kids: seq<Derivation>, base: seq<NState>, g0: map<Option<string>, Nfa>, alt: Option<nat>) {
    forall j {:trigger Prior(kids, base, j, alt)} | 0 <= j < |kids| ::
      kids[j].before == Prior(kids, base, j, alt) && kids[j].g0 == (if j == 0 then g0 else kids[j - 1].g1)
  }

  /** The groups recorded after the last child, or `g0` when there is none. */
  function LastGroups(kids: seq<Derivation>, g0: map<Option<string>, Nfa>): map<Option<string>, Nfa> {
    if kids == [] then g0 else kids[|kids| - 1].g1
  }

  /** `CONCAT` and `REPEAT(n > 0)`: the children chained in order, each end linked by ε to the next
      start; the fragment runs from the first start to the last end. */
  predicate Chained(d: Derivation) {
    |d.kids| > 0 && Sequenced(d.kids, d.before, d.g0, None)
    && d.after == ChainAfter(d.kids, |d.kids| - 1)
    && d.f == Nfa(d.kids[0].f.start, d.kids[|d.kids| - 1].f.end)
    && d.g1 == LastGroups(d.kids, d.g0)
  }

  /** A node with one child built first, on the same states and groups. */
  predicate Wrapped(d: Derivation) {
    |d.kids| == 1 && |d.node.children| >= 1 && d.kids[0].node == d.node.children[0]
    && d.kids[0].before == d.before && d.kids[0].g0 == d.g0
  }

  /** What `build` makes of each kind of node, stated on the whole state list. */
  ghost predicate Derives(d: Derivation)
    decreases d
  {
    (forall k | k in d.kids :: Derives(k))
    && var n, lo := d.node, |d.before|;
    match n.op
    case CHAR =>
      n.value.Str? && d.kids == [] && d.g1 == d.g0 && d.f == Nfa(lo, lo + 1)
      && d.after == d.before + [AddEdge(Blank, n.value.s, lo + 1), Exit]
    case CONCAT =>
      |d.kids| == |n.children| && (forall j | 0 <= j < |d.kids| :: d.kids[j].node == n.children[j]) && Chained(d)
    case REPEAT =>
      n.value.Num? &&
      if n.value.n == 0 then
        d.kids == [] && d.g1 == d.g0 && d.f == Nfa(lo, lo + 1) && d.after == d.before + [Link(lo + 1), Exit]
      else
        |n.children| >= 1 && |d.kids| == n.value.n && (forall j | 0 <= j < |d.kids| :: d.kids[j].node == n.children[0]) && Chained(d)
    case ALT =>
      |d.kids| == |n.children| && (forall j | 0 <= j < |d.kids| :: d.kids[j].node == n.children[j])
      && Sequenced(d.kids, d.before + [Blank, Blank], d.g0, Some(lo))
      && d.after == Put(if d.kids == [] then d.before + [Blank, Blank] else AltAfter(d.kids, lo, |d.kids| - 1), lo + 1, Exit)
      && d.f == Nfa(lo, lo + 1) && d.g1 == LastGroups(d.kids, d.g0)
    case KLEENE =>
      Wrapped(d) && d.g1 == d.kids[0].g1 &&
      var k := d.kids[0]; var m := |k.after|; var loop := NState(map[], [k.f.start, m + 1], false);
      d.after == Put(k.after, k.f.end, loop) + [loop, Exit] && d.f == Nfa(m, m + 1)
    case OPTIONAL =>
      Wrapped(d) && d.g1 == d.kids[0].g1 &&
      var k := d.kids[0]; var m := |k.after|;
      d.after == Put(k.after, k.f.end, Link(m + 1)) + [NState(map[], [k.f.start, m + 1], false), Exit]
      && d.f == Nfa(m, m + 1)
    case NAMED_GROUP =>
      Wrapped(d) && d.after == d.kids[0].after && d.f == d.kids[0].f && d.g1 == d.kids[0].g1[n.name := d.kids[0].f]
    case NAMED_REF =>
      d.kids == [] && d.g1 == d.g0 && n.name in d.g0
      && exists m :: ClonedFrom(d.before, d.after, d.g0[n.name].start, d.f, m)
    case GROUP => false
  }

  /** `Derives(d)`, stated through a one-point quantifier so that a proof obligation about it is
      checked as one piece instead of one per kind of node. */
  ghost predicate Derived(d: Derivation) {
    forall x | x == d :: Derives(x)
  }

  lemma Unwrap(d: Derivation)
    requires Derived(d)
    ensures Derives(d)
  {
  }

  /** `d` records a build of `node` that turned `before` into `after`, returned `f` and turned the
      recorded groups `g0` into `g1`. */
  ghost predicate BuiltBy(d: Derivation, node: RegexNode, before: seq<NState>, after: seq<NState>, f: Nfa,
                          g0: map<Option<string>, Nfa>, g1: map<Option<string>, Nfa>) {
    Derived(d) && d.node == node && d.before == before && d.after == after && d.f == f && d.g0 == g0 && d.g1 == g1
  }


  /** Every child build in `kids` follows `Derives`. */
  ghost predicate AllDerive(kids: seq<Derivation>) {
    forall j | 0 <= j < |kids| :: Derives(kids[j])
  }

  lemma AllDeriveSnoc(kids: seq<Derivation>, k: Derivation)
    requires AllDerive(kids) && Derived(k)
    ensures AllDerive(kids + [k])
  {
    Unwrap(k);
    var ks := kids + [k];
    forall j | 0 <= j < |ks| ensures Derives(ks[j]) {
      if j < |kids| { assert ks[j] == kids[j]; }
    }
  }

  /** Appending a child does not change what the earlier ones were built on. */
  lemma PriorSnoc(kids: seq<Derivation>, k: Derivation, base: seq<NState>, j: nat, alt: Option<nat>)
    requires j < |kids|
    ensures Prior(kids + [k], base, j, alt) == Prior(kids, base, j, alt)
  {
    var ks := kids + [k];
    if j > 0 {
      assert ks[j - 1] == kids[j - 1];
      if j > 1 { assert ks[j - 2] == kids[j - 2]; }
    }
  }

  /** Adding the next child keeps the children sequenced. */
  lemma SequencedSnoc(kids: seq<Derivation>, k: Derivation, base: seq<NState>, g0: map<Option<string>, Nfa>, alt: Option<nat>)
    requires Sequenced(kids, base, g0, alt)
    requires k.before == Prior(kids + [k], base, |kids|, alt) && k.g0 == LastGroups(kids, g0)
    ensures Sequenced(kids + [k], base, g0, alt)
  {
    var ks := kids + [k];
    forall j | 0 <= j < |ks|
      ensures ks[j].before == Prior(ks, base, j, alt) && ks[j].g0 == (if j == 0 then g0 else ks[j - 1].g1)
    {
      if j < |kids| {
        PriorSnoc(kids, k, base, j, alt);
        assert ks[j] == kids[j] && kids[j].before == Prior(kids, base, j, alt);
        if j > 0 { assert ks[j - 1] == kids[j - 1]; }
      } else if j > 0 {
        assert ks[j - 1] == kids[j - 1];
      }
    }
    assert Sequenced(ks, base, g0, alt);
  }

  /** `CharFragment` gives a `CHAR` derivation. */
  lemma CharDerives(node: RegexNode, s0: seq<NState>, g0: map<Option<string>, Nfa>)
    requires node.op == RegexOp.CHAR && node.value.Str?
    ensures Derived(Derivation(node, s0, s0 + [AddEdge(Blank, node.value.s, |s0| + 1), Exit], Nfa(|s0|, |s0| + 1), g0, g0, []))
  {
    assert Derives(Derivation(node, s0, s0 + [AddEdge(Blank, node.value.s, |s0| + 1), Exit], Nfa(|s0|, |s0| + 1), g0, g0, []));
  }

  /** `EmptyRepeat` gives a `REPEAT(0)` derivation. */
  lemma EmptyRepeatDerives(node: RegexNode, s0: seq<NState>, g0: map<Option<string>, Nfa>)
    requires node.op == RegexOp.REPEAT && node.value.Num? && node.value.n == 0
    ensures Derived(Derivation(node, s0, s0 + [NState(map[], [|s0| + 1], false), Exit], Nfa(|s0|, |s0| + 1), g0, g0, []))
  {
    assert Derives(Derivation(node, s0, s0 + [NState(map[], [|s0| + 1], false), Exit], Nfa(|s0|, |s0| + 1), g0, g0, []));
  }

  /** `CloneNfa` of the recorded group gives a `NAMED_REF` derivation. */
  lemma RefDerives(node: RegexNode, s0: seq<NState>, after: seq<NState>, f: Nfa, g0: map<Option<string>, Nfa>,
                   m: map<nat, nat>)
    requires node.op == RegexOp.NAMED_REF && node.name in g0 && ClonedFrom(s0, after, g0[node.name].start, f, m)
    ensures Derived(Derivation(node, s0, after, f, g0, g0, []))
  {
    var d := Derivation(node, s0, after, f, g0, g0, []);
    assert ClonedFrom(d.before, d.after, d.g0[node.name].start, d.f, m);
    assert Derives(d);
  }

  /** `Star` and `Opt` around a child build give a `KLEENE` or `OPTIONAL` derivation. */
  lemma WrappedDerives(node: RegexNode, k: Derivation, after: seq<NState>, f: Nfa)
    requires (node.op == RegexOp.KLEENE || node.op == RegexOp.OPTIONAL) && |node.children| >= 1
    requires Derived(k) && k.node == node.children[0] && k.f.end < |k.after|
    requires f == Nfa(|k.after|, |k.after| + 1)
    requires node.op == RegexOp.KLEENE ==>
               var loop := NState(map[], [k.f.start, f.end], false); after == k.after[k.f.end := loop] + [loop, Exit]
    requires node.op == RegexOp.OPTIONAL ==>
               after == k.after[k.f.end := Link(f.end)] + [NState(map[], [k.f.start, f.end], false), Exit]
    ensures Derived(Derivation(node, k.before, after, f, k.g0, k.g1, [k]))
  {
    Unwrap(k);
    assert Derives(Derivation(node, k.before, after, f, k.g0, k.g1, [k]));
  }

  /** Recording the child's fragment under the group's name gives a `NAMED_GROUP` derivation. */
  lemma GroupDerives(node: RegexNode, k: Derivation)
    requires node.op == RegexOp.NAMED_GROUP && |node.children| >= 1 && Derived(k) && k.node == node.children[0]
    ensures Derived(Derivation(node, k.before, k.after, k.f, k.g0, k.g1[node.name := k.f], [k]))
  {
    Unwrap(k);
    assert Derives(Derivation(node, k.before, k.after, k.f, k.g0, k.g1[node.name := k.f], [k]));
  }

  /** The chained children of a `CONCAT` or `REPEAT(n > 0)` give its derivation. */
  lemma ChainDerives(node: RegexNode, kids: seq<Derivation>, s0: seq<NState>, g0: map<Option<string>, Nfa>,
                     states: seq<NState>, cur: Nfa, groups: map<Option<string>, Nfa>)
    requires node.op == RegexOp.CONCAT || (node.op == RegexOp.REPEAT && node.value.Num? && node.value.n > 0)
    requires node.op == RegexOp.CONCAT ==> |kids| == |node.children| && forall j | 0 <= j < |kids| :: kids[j].node == node.children[j]
    requires node.op == RegexOp.REPEAT ==>
               |node.children| >= 1 && |kids| == node.value.n && forall j | 0 <= j < |kids| :: kids[j].node == node.children[0]
    requires ChainSoFar(kids, s0, g0, states, cur, groups)
    ensures Derived(Derivation(node, s0, states, cur, g0, groups, kids))
  {
    assert ChainState(kids, s0, g0, states, cur, groups);
    assert Derives(Derivation(node, s0, states, cur, g0, groups, kids));
  }

  /** The linked branches of an `ALT`, with its `end` marked final, give its derivation. */
  lemma AltDerives(node: RegexNode, kids: seq<Derivation>, s0: seq<NState>, g0: map<Option<string>, Nfa>,
                   states: seq<NState>, groups: map<Option<string>, Nfa>)
    requires node.op == RegexOp.ALT && |kids| == |node.children|
    requires forall j | 0 <= j < |kids| :: kids[j].node == node.children[j]
    requires AltSoFar(kids, s0, g0, states, groups)
    ensures Derived(Derivation(node, s0, Put(states, |s0| + 1, Exit), Nfa(|s0|, |s0| + 1), g0, groups, kids))
  {
    assert AltState(kids, s0, g0, states, groups);
    assert Derives(Derivation(node, s0, Put(states, |s0| + 1, Exit), Nfa(|s0|, |s0| + 1), g0, groups, kids));
  }

  /** The first `|kids|` children of a `CONCAT` or `REPEAT` are built and chained on `s0` and `g0`,
      leaving `states`, the fragment `cur` and the groups `groups`. */
  ghost predicate ChainSoFar(kids: seq<Derivation>, s0: seq<NState>, g0: map<Option<string>, Nfa>,
                             states: seq<NState>, cur: Nfa, groups: map<Option<string>, Nfa>) {
    forall ks | ks == kids :: ChainState(ks, s0, g0, states, cur, groups)
  }

  /** The body of `ChainSoFar`. */
  ghost predicate ChainState(kids: seq<Derivation>, s0: seq<NState>, g0: map<Option<string>, Nfa>,
                             states: seq<NState>, cur: Nfa, groups: map<Option<string>, Nfa>) {
    |kids| > 0 && AllDerive(kids) && Sequenced(kids, s0, g0, None)
    && states == ChainAfter(kids, |kids| - 1) && cur == Nfa(kids[0].f.start, kids[|kids| - 1].f.end)
    && groups == kids[|kids| - 1].g1
  }

  lemma ChainFirst(k: Derivation)
    requires Derived(k)
    ensures ChainSoFar([k], k.before, k.g0, k.after, k.f, k.g1)
  {
    Unwrap(k);
  }

  /** Building the next child on what the chain left and linking the chain's end to its start. */
  lemma ChainNext(kids: seq<Derivation>, s0: seq<NState>, g0: map<Option<string>, Nfa>, states: seq<NState>,
                  cur: Nfa, groups: map<Option<string>, Nfa>, k: Derivation)
    requires ChainSoFar(kids, s0, g0, states, cur, groups)
    requires Derived(k) && k.before == states && k.g0 == groups && cur.end < |k.after|
    ensures ChainSoFar(kids + [k], s0, g0, k.after[cur.end := Link(k.f.start)], Nfa(cur.start, k.f.end), k.g1)
  {
    assert ChainState(kids, s0, g0, states, cur, groups);
    var ks := kids + [k];
    assert ks[|kids| - 1] == kids[|kids| - 1] && ks[0] == kids[0] && ks[|kids|] == k;
    assert AllDerive(ks) by { AllDeriveSnoc(kids, k); }
    assert Sequenced(ks, s0, g0, None) by { SequencedSnoc(kids, k, s0, g0, None); }
    assert cur.end == ks[|ks| - 2].f.end;
    assert ChainAfter(ks, |ks| - 1) == Put(k.after, cur.end, Link(k.f.start));
    assert ChainState(ks, s0, g0, k.after[cur.end := Link(k.f.start)], Nfa(cur.start, k.f.end), k.g1);
  }

  /** The first `|kids|` branches of an `ALT` at `lo` are built and linked on `s0 + [Blank, Blank]`
      and `g0`, leaving `states` and the groups `groups`. */
  ghost predicate AltSoFar(kids: seq<Derivation>, s0: seq<NState>, g0: map<Option<string>, Nfa>,
                           states: seq<NState>, groups: map<Option<string>, Nfa>) {
    forall ks | ks == kids :: AltState(ks, s0, g0, states, groups)
  }

  /** The body of `AltSoFar`. */
  ghost predicate AltState(kids: seq<Derivation>, s0: seq<NState>, g0: map<Option<string>, Nfa>,
                           states: seq<NState>, groups: map<Option<string>, Nfa>) {
    AllDerive(kids) && Sequenced(kids, s0 + [Blank, Blank], g0, Some(|s0|))
    && states == (if kids == [] then s0 + [Blank, Blank] else AltAfter(kids, |s0|, |kids| - 1))
    && groups == LastGroups(kids, g0)
  }

  /** Building the next branch on what the `ALT` left and linking it between `start` and `end`. */
  lemma AltNext(kids: seq<Derivation>, s0: seq<NState>, g0: map<Option<string>, Nfa>, states: seq<NState>,
                groups: map<Option<string>, Nfa>, k: Derivation)
    requires AltSoFar(kids, s0, g0, states, groups)
    requires Derived(k) && k.before == states && k.g0 == groups && |s0| < |k.after| && k.f.end < |k.after|
    ensures AltSoFar(kids + [k], s0, g0,
                     k.after[|s0| := AddEdge(k.after[|s0|], Epsilon, k.f.start)][k.f.end := Link(|s0| + 1)], k.g1)
  {
    assert AltState(kids, s0, g0, states, groups);
    Unwrap(k);
    SequencedSnoc(kids, k, s0 + [Blank, Blank], g0, Some(|s0|));
    AllDeriveSnoc(kids, k);
    var ks := kids + [k];
    assert ks[|kids|] == k && LastGroups(ks, g0) == k.g1;
    assert AltState(ks, s0, g0, k.after[|s0| := AddEdge(k.after[|s0|], Epsilon, k.f.start)][k.f.end := Link(|s0| + 1)], k.g1);
  }

  /** Marking a final state final again changes nothing. */
  lemma RemarkFinal(states: seq<NState>, i: nat)
    requires i < |states| && states[i] == Exit
    ensures states[i := states[i].(isEnd := true)] == states
  {
  }

  class NfaConstructor {
    var namedGroups: map<Option<string>, Nfa>

    /** Every recorded fragment starts at an existing state. */
    ghost predicate GroupsIn(n: nat)
      reads this
    {
      forall k | k in namedGroups :: namedGroups[k].start < n
    }

    constructor ()
      ensures namedGroups == map[]
    {
      namedGroups := map[];
    }

    /** `build(node)`: on success a fragment made of the states created by this call (only its end
        final), with the edges `Derives` prescribes for the node; the error and the recorded names
        are those `Scan` predicts. States that existed before are never changed. */
    method Build(arena: Arena, node: RegexNode) returns (r: Result<Nfa>, ghost d: Derivation)
      requires arena.Valid() && Buildable(node) && GroupsIn(|arena.states|)
      modifies this, arena
      ensures arena.Valid() && GroupsIn(|arena.states|)
      ensures Outcome(r, Scan(node, old(namedGroups.Keys)), namedGroups.Keys, old(arena.states), arena.states)
      ensures r.Ok? ==> BuiltBy(d, node, old(arena.states), arena.states, r.value, old(namedGroups), namedGroups)
      decreases node, 1
    {
      var s0, g0 := arena.states, namedGroups;
      d := Derivation(node, s0, s0, Nfa(0, 0), g0, g0, []);
      match node.op
      case CHAR =>
        r, d := BuildLeaf(arena, node);
      case CONCAT =>
        if node.children == [] {
          r := Err(Error(AssertionError, "Empty CONCAT"));
        } else {
          r, d := BuildConcat(arena, node);
        }
      case ALT =>
        r, d := BuildAlt(arena, node);
      case KLEENE =>
        r, d := BuildWrapped(arena, node);
      case OPTIONAL =>
        r, d := BuildWrapped(arena, node);
      case REPEAT =>
        if node.value.n == 0 {
          r, d := BuildLeaf(arena, node);
        } else {
          r, d := BuildRepeat(arena, node);
        }
      case NAMED_GROUP =>
        r, d := BuildNamedGroup(arena, node);
      case NAMED_REF =>
        r, d := BuildLeaf(arena, node);
      case GROUP =>
        r := Err(Error(ValueError, "Unknown operation: RegexOp.GROUP"));
    }

    /** The nodes without a child to build: `CHAR`, `REPEAT(0)` and a reference, which copies the
        recorded fragment of its group or fails when the group is not recorded yet. */
    method BuildLeaf(arena: Arena, node: RegexNode) returns (r: Result<Nfa>, ghost d: Derivation)
      requires node.op == RegexOp.CHAR || node.op == RegexOp.NAMED_REF || (node.op == RegexOp.REPEAT && node.value.Num? && node.value.n == 0)
      requires arena.Valid() && Buildable(node) && GroupsIn(|arena.states|)
      modifies this, arena
      ensures arena.Valid() && GroupsIn(|arena.states|)
      ensures Outcome(r, Scan(node, old(namedGroups.Keys)), namedGroups.Keys, old(arena.states), arena.states)
      ensures r.Ok? ==> BuiltBy(d, node, old(arena.states), arena.states, r.value, old(namedGroups), namedGroups)
    {
      var s0, g0 := arena.states, namedGroups;
      d := Derivation(node, s0, s0, Nfa(0, 0), g0, g0, []);
      if node.op == RegexOp.CHAR {
        var f := CharFragment(arena, node.value.s);
        CharDerives(node, s0, g0);
        r := Ok(f);
        d := Derivation(node, s0, arena.states, f, g0, g0, []);
      } else if node.op == RegexOp.REPEAT {
        var f := EmptyRepeat(arena);
        EmptyRepeatDerives(node, s0, g0);
        r := Ok(f);
        d := Derivation(node, s0, arena.states, f, g0, g0, []);
      } else {
        if node.name !in namedGroups {
          return Err(Error(ValueError, "Undefined group reference: " + NameText(node.name))), d;
        }
        var f, m := CloneNfa(arena, namedGroups[node.name]);
        RefDerives(node, s0, arena.states, f, g0, m);
        r := Ok(f);
        d := Derivation(node, s0, arena.states, f, g0, g0, []);
      }
    }

    /** `KLEENE` and `OPTIONAL`: the child's fragment wrapped by `Star` or `Opt`. */
    method BuildWrapped(arena: Arena, node: RegexNode) returns (r: Result<Nfa>, ghost d: Derivation)
      requires (node.op == RegexOp.KLEENE || node.op == RegexOp.OPTIONAL)
      requires |node.children| >= 1 && Buildable(node.children[0])
      requires arena.Valid() && GroupsIn(|arena.states|)
      modifies this, arena
      ensures arena.Valid() && GroupsIn(|arena.states|)
      ensures Outcome(r, Scan(node.children[0], old(namedGroups.Keys)), namedGroups.Keys, old(arena.states), arena.states)
      ensures r.Ok? ==> BuiltBy(d, node, old(arena.states), arena.states, r.value, old(namedGroups), namedGroups)
      decreases node, 0
    {
      var lo := |arena.states|;
      var s0, g0 := arena.states, namedGroups;
      var inner, k := Build(arena, node.children[0]);
      d := k;
      if inner.Err? {
        return Err(inner.error), d;
      }
      var f;
      if node.op == RegexOp.KLEENE {
        f := Star(arena, inner.value, lo);
      } else {
        f := Opt(arena, inner.value, lo);
      }
      WrappedDerives(node, k, arena.states, f);
      r := Ok(f);
      d := Derivation(node, s0, arena.states, f, g0, namedGroups, [k]);
    }

    /** `NAMED_GROUP`: the child's fragment, recorded under the group's name. */
    method BuildNamedGroup(arena: Arena, node: RegexNode) returns (r: Result<Nfa>, ghost d: Derivation)
      requires node.op == RegexOp.NAMED_GROUP && |node.children| >= 1 && Buildable(node.children[0])
      requires arena.Valid() && GroupsIn(|arena.states|)
      modifies this, arena
      ensures arena.Valid() && GroupsIn(|arena.states|)
      ensures Outcome(r, Scan(node, old(namedGroups.Keys)), namedGroups.Keys, old(arena.states), arena.states)
      ensures r.Ok? ==> node.name in namedGroups && namedGroups[node.name] == r.value
      ensures r.Ok? ==> BuiltBy(d, node, old(arena.states), arena.states, r.value, old(namedGroups), namedGroups)
      decreases node, 0
    {
      var s0, g0 := arena.states, namedGroups;
      var inner, k := Build(arena, node.children[0]);
      d := k;
      if inner.Err? {
        return Err(inner.error), d;
      }
      namedGroups := namedGroups[node.name := inner.value];
      r := inner;
      GroupDerives(node, k);
      d := Derivation(node, s0, arena.states, inner.value, g0, namedGroups, [k]);
    }

    /** `CONCAT`: the children's fragments in order, each end linked to the next start by ε. */
    method BuildConcat(arena: Arena, node: RegexNode) returns (r: Result<Nfa>, ghost d: Derivation)
      requires node.op == RegexOp.CONCAT && node.children != [] && forall c | c in node.children :: Buildable(c)
      requires arena.Valid() && GroupsIn(|arena.states|)
      modifies this, arena
      ensures arena.Valid() && GroupsIn(|arena.states|)
      ensures Outcome(r, ScanFrom(node, 0, old(namedGroups.Keys)), namedGroups.Keys, old(arena.states), arena.states)
      ensures r.Ok? ==> BuiltBy(d, node, old(arena.states), arena.states, r.value, old(namedGroups), namedGroups)
      decreases node, 0
    {
      var lo := |arena.states|;
      ghost var d0 := namedGroups.Keys;
      ghost var s0, g0 := arena.states, namedGroups;
      var first, k0 := Build(arena, node.children[0]);
      d := k0;
      if first.Err? {
        return Err(first.error), d;
      }
      var cur := first.value;
      ghost var kids := [k0];
      ChainFirst(k0);
      var i := 1;
      while i < |node.children|
        invariant 1 <= i <= |node.children| && |kids| == i
        invariant arena.Valid() && GroupsIn(|arena.states|) && Grew(s0, arena.states)
        invariant Fragment(arena.states, cur, lo)
        invariant ScanFrom(node, i, namedGroups.Keys) == ScanFrom(node, 0, d0)
        invariant forall j | 0 <= j < i :: kids[j].node == node.children[j]
        invariant ChainSoFar(kids, s0, g0, arena.states, cur, namedGroups)
        decreases |node.children| - i
      {
        var next, k := ChainChild(arena, node.children[i], lo, cur, s0, g0, kids);
        if next.Err? {
          return Err(next.error), k;
        }
        kids := kids + [k];
        cur := Nfa(cur.start, next.value.end);
        i := i + 1;
      }
      RemarkFinal(arena.states, cur.end);
      ChainDerives(node, kids, s0, g0, arena.states, cur, namedGroups);
      cur := arena.MakeNfa(cur.start, cur.end);
      r := Ok(cur);
      d := Derivation(node, s0, arena.states, cur, g0, namedGroups, kids);
    }

    /** One round of the `CONCAT`/`REPEAT` loop: build `child` on what the chain left and link the
        chain's end to its start by ε, or report the child's error. */
    method ChainChild(arena: Arena, child: RegexNode, lo: nat, cur: Nfa, ghost s0: seq<NState>,
                      ghost g0: map<Option<string>, Nfa>, ghost kids: seq<Derivation>)
      returns (next: Result<Nfa>, ghost k: Derivation)
      requires Buildable(child) && arena.Valid() && GroupsIn(|arena.states|) && Grew(s0, arena.states) && lo == |s0|
      requires Fragment(arena.states, cur, lo) && ChainSoFar(kids, s0, g0, arena.states, cur, namedGroups)
      modifies this, arena
      ensures arena.Valid() && GroupsIn(|arena.states|) && Grew(s0, arena.states)
      ensures next.Err? <==> Scan(child, old(namedGroups.Keys)).err.Some?
      ensures next.Err? ==> next.error == Scan(child, old(namedGroups.Keys)).err.value
      ensures next.Ok? ==> namedGroups.Keys == Scan(child, old(namedGroups.Keys)).defined
      ensures next.Ok? ==> k.node == child && Fragment(arena.states, Nfa(cur.start, next.value.end), lo)
      ensures next.Ok? ==> ChainSoFar(kids + [k], s0, g0, arena.states, Nfa(cur.start, next.value.end), namedGroups)
      decreases child, 2
    {
      var mid := |arena.states|;
      ghost var before, groups := arena.states, namedGroups;
      next, k := Build(arena, child);
      if next.Err? {
        return;
      }
      FragmentKept(before, arena.states, cur, lo, mid);
      ghost var s1 := arena.states;
      ChainNext(kids, s0, g0, before, cur, groups, k);
      Chain(arena, cur, next.value, lo, mid);
      GrewUpdate(s0, s1, cur.end, NState(map[], [next.value.start], false));
    }

    /** `REPEAT(n)` with `n > 0`: the child built `n` times with fresh states, chained like `CONCAT`. */
    method BuildRepeat(arena: Arena, node: RegexNode) returns (r: Result<Nfa>, ghost d: Derivation)
      requires node.op == RegexOp.REPEAT && node.value.Num? && node.value.n > 0
      requires |node.children| >= 1 && Buildable(node.children[0])
      requires arena.Valid() && GroupsIn(|arena.states|)
      modifies this, arena
      ensures arena.Valid() && GroupsIn(|arena.states|)
      ensures Outcome(r, Scan(node.children[0], old(namedGroups.Keys)), namedGroups.Keys, old(arena.states), arena.states)
      ensures r.Ok? ==> BuiltBy(d, node, old(arena.states), arena.states, r.value, old(namedGroups), namedGroups)
      decreases node, 0
    {
      var lo := |arena.states|;
      var child := node.children[0];
      ghost var d0 := namedGroups.Keys;
      ghost var s0, g0 := arena.states, namedGroups;
      var base, k0 := Build(arena, child);
      d := k0;
      if base.Err? {
        return Err(base.error), d;
      }
      ScanAgain(child, d0);
      var cur := base.value;
      ghost var kids := [k0];
      ChainFirst(k0);
      var count := node.value.n;
      var i := 1;
      while i < count
        invariant 1 <= i <= count && |kids| == i
        invariant arena.Valid() && GroupsIn(|arena.states|) && Grew(s0, arena.states)
        invariant Fragment(arena.states, cur, lo)
        invariant Scan(child, namedGroups.Keys) == Scan(child, d0)
        invariant namedGroups.Keys == Scan(child, d0).defined
        invariant forall j | 0 <= j < i :: kids[j].node == child
        invariant ChainSoFar(kids, s0, g0, arena.states, cur, namedGroups)
        decreases count - i
      {
        var next, k := ChainChild(arena, child, lo, cur, s0, g0, kids);
        assert next.Ok?;
        kids := kids + [k];
        cur := Nfa(cur.start, next.value.end);
        i := i + 1;
      }
      RemarkFinal(arena.states, cur.end);
      ChainDerives(node, kids, s0, g0, arena.states, cur, namedGroups);
      cur := arena.MakeNfa(cur.start, cur.end);
      r := Ok(cur);
      d := Derivation(node, s0, arena.states, cur, g0, namedGroups, kids);
    }

    /** `ALT`: fresh `start` and `end`, then each child's fragment in order, entered from `start`
        by ε and leaving to `end` by ε. */
    method BuildAlt(arena: Arena, node: RegexNode) returns (r: Result<Nfa>, ghost d: Derivation)
      requires node.op == RegexOp.ALT && forall c | c in node.children :: Buildable(c)
      requires arena.Valid() && GroupsIn(|arena.states|)
      modifies this, arena
      ensures arena.Valid() && GroupsIn(|arena.states|)
      ensures Outcome(r, ScanFrom(node, 0, old(namedGroups.Keys)), namedGroups.Keys, old(arena.states), arena.states)
      ensures r.Ok? ==> BuiltBy(d, node, old(arena.states), arena.states, r.value, old(namedGroups), namedGroups)
      decreases node, 0, 1
    {
      var lo := |arena.states|;
      ghost var d0 := namedGroups.Keys;
      ghost var s0, g0 := arena.states, namedGroups;
      d := Derivation(node, s0, s0, Nfa(0, 0), g0, g0, []);
      var start := arena.NewState();
      var end := arena.NewState();
      assert arena.states == s0 + [Blank, Blank];
      ghost var kids: seq<Derivation> := [];
      var i := 0;
      while i < |node.children|
        invariant 0 <= i <= |node.children| && |kids| == i
        invariant arena.Valid() && GroupsIn(|arena.states|) && AltOpen(s0, arena.states)
        invariant ScanFrom(node, i, namedGroups.Keys) == ScanFrom(node, 0, d0)
        invariant forall j | 0 <= j < i :: kids[j].node == node.children[j]
        invariant AltSoFar(kids, s0, g0, arena.states, namedGroups)
        decreases |node.children| - i
      {
        var err, k := AltChild(arena, node, i, start, end, s0, g0, kids);
        if err.Some? {
          return Err(err.value), k;
        }
        kids := kids + [k];
        i := i + 1;
      }
      AltDerives(node, kids, s0, g0, arena.states, namedGroups);
      var f := arena.MakeNfa(start, end);
      r := Ok(f);
      d := Derivation(node, s0, arena.states, f, g0, namedGroups, kids);
    }

    /** One round of the `ALT` loop: build branch `i` and link it between the `ALT`'s `start`
        (state `|s0|`) and `end` (state `|s0| + 1`), or report the branch's error. */
    method AltChild(arena: Arena, node: RegexNode, i: nat, start: nat, end: nat, ghost s0: seq<NState>,
                    ghost g0: map<Option<string>, Nfa>, ghost kids: seq<Derivation>)
      returns (err: Option<Error>, ghost k: Derivation)
      requires node.op == RegexOp.ALT && (forall c | c in node.children :: Buildable(c)) && i < |node.children|
      requires arena.Valid() && GroupsIn(|arena.states|) && AltOpen(s0, arena.states) && |kids| == i
      requires start == |s0| && end == |s0| + 1
      requires AltSoFar(kids, s0, g0, arena.states, namedGroups)
      modifies this, arena
      ensures arena.Valid() && GroupsIn(|arena.states|) && Grew(s0, arena.states)
      ensures err == Scan(node.children[i], old(namedGroups.Keys)).err
      ensures err.None? ==> namedGroups.Keys == Scan(node.children[i], old(namedGroups.Keys)).defined
      ensures err.None? ==> AltOpen(s0, arena.states) && k.node == node.children[i]
      ensures err.None? ==> AltSoFar(kids + [k], s0, g0, arena.states, namedGroups)
      decreases node, 0, 0
    {
      ghost var before, groups := arena.states, namedGroups;
      var branch;
      branch, k := Build(arena, node.children[i]);
      if branch.Err? {
        return Some(branch.error), k;
      }
      ghost var s1 := arena.states;
      AltNext(kids, s0, g0, before, groups, k);
      AltBranch(arena, start, end, branch.value);
      AltStep(s0, before, s1, branch.value, arena.states);
      err := None;
    }
  }
}
