/** `intersect_dfa` (Lab2/RegexDFA.py): the product automaton over the symbols both inputs use,
    built by a breadth-first worklist from the pair of start states.

    `pairs[k]` is the pair of input states product state `k` stands for. States are appended in
    the order they are first met and handled in that order, so the queue of the source is always
    `pairs[done..]`. */
module DfaIntersect {
  import opened Wrappers
  import opened Sets
  import opened RegexDfa

  type Key = (StateName, StateName)

  /** Both halves of every pair are states of their automaton. */
  predicate InRange(s1: seq<DState>, s2: seq<DState>, pairs: seq<(nat, nat)>) {
    forall k | 0 <= k < |pairs| :: pairs[k].0 < |s1| && pairs[k].1 < |s2|
  }

  /** `make_key(s1, s2)`: the name pair of a pair of states. */
  function KeyOf(s1: seq<DState>, s2: seq<DState>, p: (nat, nat)): Key
    requires p.0 < |s1| && p.1 < |s2|
  {
    (s1[p.0].name, s2[p.1].name)
  }

  /** Product state `k` is named after its pair and is final iff both halves are. */
  predicate Entry(s1: seq<DState>, s2: seq<DState>, states: seq<DState>, pairs: seq<(nat, nat)>, k: nat)
    requires k < |states| == |pairs| && InRange(s1, s2, pairs)
  {
    var p := pairs[k];
    states[k].name == Pair(s1[p.0].name, s2[p.1].name) && states[k].nfaStates == {}
    && states[k].isEnd == (s1[p.0].isEnd && s2[p.1].isEnd)
  }

  /** `visited` sends each name pair met so far to the one product state for it. */
  predicate Indexed(s1: seq<DState>, s2: seq<DState>, pairs: seq<(nat, nat)>, visited: map<Key, nat>)
    requires InRange(s1, s2, pairs)
  {
    (forall key | key in visited :: visited[key] < |pairs| && KeyOf(s1, s2, pairs[visited[key]]) == key)
    && forall k | 0 <= k < |pairs| :: KeyOf(s1, s2, pairs[k]) in visited && visited[KeyOf(s1, s2, pairs[k])] == k
  }

  /** The edges of product state `k` on the symbols of `seen`: one exactly where both halves have
      an edge, leading to the state of the pair of targets. */
  ghost predicate EdgesOn(s1: seq<DState>, s2: seq<DState>, states: seq<DState>, pairs: seq<(nat, nat)>, k: nat,
                          seen: set<string>)
    requires k < |states| == |pairs| && InRange(s1, s2, pairs)
  {
    var p, t := pairs[k], states[k].transitions;
    var t1, t2 := s1[p.0].transitions, s2[p.1].transitions;
    t.Keys == t1.Keys * t2.Keys * seen
    && forall a | a in t :: t[a] < |pairs| && pairs[t[a]] == (t1[a], t2[a])
  }

  /** The symbols some state of `s1` and some state of `s2` both have an edge on. */
  ghost function Common(s1: seq<DState>, s2: seq<DState>): set<string> {
    AlphabetOf(s1) * AlphabetOf(s2)
  }

  /** The worklist invariant: the states before `done` are processed, the rest are queued with
      no edges yet. */
  ghost predicate Inv(s1: seq<DState>, s2: seq<DState>, states: seq<DState>, pairs: seq<(nat, nat)>,
                      visited: map<Key, nat>, done: nat)
  {
    done <= |states| == |pairs| && InRange(s1, s2, pairs) && Closed(states) && Indexed(s1, s2, pairs, visited)
    && (forall k | 0 <= k < |states| :: Entry(s1, s2, states, pairs, k))
    && (forall k | 0 <= k < done :: EdgesOn(s1, s2, states, pairs, k, Common(s1, s2)))
    && (forall k | done <= k < |states| :: states[k].transitions == map[])
  }

  /** Inside the processing of state `done`: its edges on the symbols of `seen` are in place. */
  ghost predicate PartialInv(s1: seq<DState>, s2: seq<DState>, states: seq<DState>, pairs: seq<(nat, nat)>,
                             visited: map<Key, nat>, done: nat, seen: set<string>)
  {
    done < |states| == |pairs| && InRange(s1, s2, pairs) && Closed(states) && Indexed(s1, s2, pairs, visited)
    && (forall k | 0 <= k < |states| :: Entry(s1, s2, states, pairs, k))
    && (forall k | 0 <= k < done :: EdgesOn(s1, s2, states, pairs, k, Common(s1, s2)))
    && (forall k | done < k < |states| :: states[k].transitions == map[])
    && EdgesOn(s1, s2, states, pairs, done, seen)
  }

  /** The finished product: every state processed, and no pair met twice. */
  ghost predicate Product(s1: seq<DState>, s2: seq<DState>, states: seq<DState>, pairs: seq<(nat, nat)>) {
    |states| == |pairs| && InRange(s1, s2, pairs) && Closed(states) && NoDup(pairs)
    && (forall k | 0 <= k < |states| :: Entry(s1, s2, states, pairs, k))
    && (forall k | 0 <= k < |states| :: EdgesOn(s1, s2, states, pairs, k, Common(s1, s2)))
  }

  // ----- the bound on the number of pairs -----

  /** All pairs of ids below `n1` and `n2`. */
  ghost function Grid(n1: nat, n2: nat): set<(nat, nat)> {
    set i: nat, j: nat | i < n1 && j < n2 :: (i, j)
  }

  /** The pairs with first half `i`. */
  ghost function Row(i: nat, n2: nat): set<(nat, nat)> {
    set j: nat | j < n2 :: (i, j)
  }

  lemma {:induction false} RowCard(i: nat, n2: nat)
    ensures |Row(i, n2)| == n2
  {
    if n2 > 0 {
      RowCard(i, n2 - 1);
      assert Row(i, n2) == Row(i, n2 - 1) + {(i, n2 - 1)};
    } else {
      assert Row(i, n2) == {};
    }
  }

  lemma {:induction false} GridCard(n1: nat, n2: nat)
    ensures |Grid(n1, n2)| == n1 * n2
  {
    if n1 > 0 {
      GridCard(n1 - 1, n2);
      RowCard(n1 - 1, n2);
      GridSplit(n1, n2);
      assert n1 * n2 == (n1 - 1) * n2 + n2;
    } else {
      assert Grid(n1, n2) == {};
    }
  }

  /** The grid is the smaller grid plus its last row, and the two do not overlap. */
  lemma GridSplit(n1: nat, n2: nat)
    requires n1 > 0
    ensures Grid(n1, n2) == Grid(n1 - 1, n2) + Row(n1 - 1, n2)
    ensures Grid(n1 - 1, n2) !! Row(n1 - 1, n2)
  {
    forall p | p in Grid(n1, n2) ensures p in Grid(n1 - 1, n2) + Row(n1 - 1, n2) {
      if p.0 < n1 - 1 {
        assert p in Grid(n1 - 1, n2);
      } else {
        assert p in Row(n1 - 1, n2);
      }
    }
    forall p | p in Row(n1 - 1, n2) ensures p in Grid(n1, n2) && p !in Grid(n1 - 1, n2) {
      assert p.0 == n1 - 1;
    }
  }

  /** The product never has more states than there are pairs of input states. */
  lemma PairsBounded(s1: seq<DState>, s2: seq<DState>, pairs: seq<(nat, nat)>, visited: map<Key, nat>)
    requires InRange(s1, s2, pairs) && Indexed(s1, s2, pairs, visited)
    ensures NoDup(pairs) && |pairs| <= |s1| * |s2|
  {
    forall i, j | 0 <= i < j < |pairs| ensures pairs[i] != pairs[j] {
      assert visited[KeyOf(s1, s2, pairs[i])] == i && visited[KeyOf(s1, s2, pairs[j])] == j;
    }
    NoDupCard(pairs);
    assert Elems(pairs) <= Grid(|s1|, |s2|) by {
      forall p | p in Elems(pairs) ensures p in Grid(|s1|, |s2|) {
        var k :| 0 <= k < |pairs| && pairs[k] == p;
      }
    }
    SubsetCard(Elems(pairs), Grid(|s1|, |s2|));
    GridCard(|s1|, |s2|);
  }

  // ----- one step of the worklist -----

  lemma InvToPartial(s1: seq<DState>, s2: seq<DState>, states: seq<DState>, pairs: seq<(nat, nat)>,
                     visited: map<Key, nat>, done: nat)
    requires Inv(s1, s2, states, pairs, visited, done) && done < |states|
    ensures PartialInv(s1, s2, states, pairs, visited, done, {})
  {
    assert states[done].transitions == map[];
  }

  lemma PartialToInv(s1: seq<DState>, s2: seq<DState>, states: seq<DState>, pairs: seq<(nat, nat)>,
                     visited: map<Key, nat>, done: nat)
    requires PartialInv(s1, s2, states, pairs, visited, done, Common(s1, s2))
    ensures Inv(s1, s2, states, pairs, visited, done + 1)
  {
  }

  /** A pair not met before becomes a new queued product state. */
  lemma AppendPair(s1: seq<DState>, s2: seq<DState>, states: seq<DState>, pairs: seq<(nat, nat)>,
                   visited: map<Key, nat>, done: nat, seen: set<string>, q: (nat, nat))
    requires PartialInv(s1, s2, states, pairs, visited, done, seen)
    requires q.0 < |s1| && q.1 < |s2| && KeyOf(s1, s2, q) !in visited
    ensures PartialInv(s1, s2, states + [DState(Pair(s1[q.0].name, s2[q.1].name), {}, map[], s1[q.0].isEnd && s2[q.1].isEnd)],
                       pairs + [q], visited[KeyOf(s1, s2, q) := |states|], done, seen)
  {
    var t := DState(Pair(s1[q.0].name, s2[q.1].name), {}, map[], s1[q.0].isEnd && s2[q.1].isEnd);
    var states', pairs' := states + [t], pairs + [q];
    IndexedAppend(s1, s2, pairs, visited, q);
    assert Closed(states') by {
      forall k, b | 0 <= k < |states'| && b in states'[k].transitions ensures states'[k].transitions[b] < |states'| {
        assert states'[k] == states[k];
      }
    }
    assert forall k | 0 <= k < |states'| :: Entry(s1, s2, states', pairs', k) by {
      forall k | 0 <= k < |states'| ensures Entry(s1, s2, states', pairs', k) {
        if k < |states| { assert Entry(s1, s2, states, pairs, k); }
      }
    }
    assert forall k | 0 <= k < |states| :: states'[k] == states[k] && pairs'[k] == pairs[k];
    assert forall k | 0 <= k < done :: EdgesOn(s1, s2, states', pairs', k, Common(s1, s2)) by {
      forall k | 0 <= k < done ensures EdgesOn(s1, s2, states', pairs', k, Common(s1, s2)) {
        assert EdgesOn(s1, s2, states, pairs, k, Common(s1, s2));
      }
    }
    assert EdgesOn(s1, s2, states', pairs', done, seen) by {
      assert EdgesOn(s1, s2, states, pairs, done, seen);
    }
  }

  /** Recording a new name pair under the next index keeps `visited` an index of the pairs. */
  lemma IndexedAppend(s1: seq<DState>, s2: seq<DState>, pairs: seq<(nat, nat)>, visited: map<Key, nat>, q: (nat, nat))
    requires InRange(s1, s2, pairs) && Indexed(s1, s2, pairs, visited)
    requires q.0 < |s1| && q.1 < |s2| && KeyOf(s1, s2, q) !in visited
    ensures InRange(s1, s2, pairs + [q]) && Indexed(s1, s2, pairs + [q], visited[KeyOf(s1, s2, q) := |pairs|])
  {
    var pairs', visited' := pairs + [q], visited[KeyOf(s1, s2, q) := |pairs|];
    assert forall k | 0 <= k < |pairs| :: pairs'[k] == pairs[k];
    forall key | key in visited' ensures visited'[key] < |pairs'| && KeyOf(s1, s2, pairs'[visited'[key]]) == key {
      if key != KeyOf(s1, s2, q) {
        assert visited'[key] == visited[key];
      }
    }
    forall k | 0 <= k < |pairs'| ensures KeyOf(s1, s2, pairs'[k]) in visited' && visited'[KeyOf(s1, s2, pairs'[k])] == k {
      if k < |pairs| {
        assert KeyOf(s1, s2, pairs[k]) in visited;
      }
    }
  }

  /** With distinct names in both inputs, equal name pairs come from equal pairs. */
  lemma KeyInjective(s1: seq<DState>, s2: seq<DState>, p: (nat, nat), q: (nat, nat))
    requires NamesUnique(s1) && NamesUnique(s2)
    requires p.0 < |s1| && p.1 < |s2| && q.0 < |s1| && q.1 < |s2|
    ensures KeyOf(s1, s2, p) == KeyOf(s1, s2, q) ==> p == q
  {
    if p.0 < q.0 { assert s1[p.0].name != s1[q.0].name; }
    if q.0 < p.0 { assert s1[p.0].name != s1[q.0].name; }
    if p.1 < q.1 { assert s2[p.1].name != s2[q.1].name; }
    if q.1 < p.1 { assert s2[p.1].name != s2[q.1].name; }
  }

  /** `current.transitions[symbol] = visited[next_key]` */
  lemma SetEdge(s1: seq<DState>, s2: seq<DState>, states: seq<DState>, pairs: seq<(nat, nat)>,
                visited: map<Key, nat>, done: nat, seen: set<string>, a: string, target: nat)
    requires PartialInv(s1, s2, states, pairs, visited, done, seen) && target < |states|
    requires a in s1[pairs[done].0].transitions && a in s2[pairs[done].1].transitions
    requires pairs[target] == (s1[pairs[done].0].transitions[a], s2[pairs[done].1].transitions[a])
    ensures var cur := states[done];
            PartialInv(s1, s2, states[done := cur.(transitions := cur.transitions[a := target])], pairs, visited, done, seen + {a})
  {
    var cur := states[done];
    var states' := states[done := cur.(transitions := cur.transitions[a := target])];
    assert forall k | 0 <= k < |states| && k != done :: states'[k] == states[k];
    assert Closed(states') by {
      forall k, b | 0 <= k < |states'| && b in states'[k].transitions ensures states'[k].transitions[b] < |states'| {
        if k != done { assert states'[k] == states[k]; }
      }
    }
    assert forall k | 0 <= k < |states'| :: Entry(s1, s2, states', pairs, k) by {
      forall k | 0 <= k < |states'| ensures Entry(s1, s2, states', pairs, k) {
        assert Entry(s1, s2, states, pairs, k);
      }
    }
    assert forall k | 0 <= k < done :: EdgesOn(s1, s2, states', pairs, k, Common(s1, s2)) by {
      forall k | 0 <= k < done ensures EdgesOn(s1, s2, states', pairs, k, Common(s1, s2)) {
        assert EdgesOn(s1, s2, states, pairs, k, Common(s1, s2));
      }
    }
  }

  /** A symbol on which a half has no edge adds nothing. */
  lemma SkipSymbol(s1: seq<DState>, s2: seq<DState>, states: seq<DState>, pairs: seq<(nat, nat)>,
                   visited: map<Key, nat>, done: nat, seen: set<string>, a: string)
    requires PartialInv(s1, s2, states, pairs, visited, done, seen)
    requires a !in s1[pairs[done].0].transitions || a !in s2[pairs[done].1].transitions
    ensures PartialInv(s1, s2, states, pairs, visited, done, seen + {a})
  {
    var p := pairs[done];
    assert s1[p.0].transitions.Keys * s2[p.1].transitions.Keys * (seen + {a})
        == s1[p.0].transitions.Keys * s2[p.1].transitions.Keys * seen;
  }

  /** `t1 = s1.transitions.get(symbol)`, `t2 = …`, and the edge when both exist. */
  method ExpandSymbol(s1: seq<DState>, s2: seq<DState>, states: seq<DState>, pairs: seq<(nat, nat)>,
                      visited: map<Key, nat>, done: nat, ghost seen: set<string>, a: string)
    returns (states': seq<DState>, pairs': seq<(nat, nat)>, visited': map<Key, nat>)
    requires WellFormedNames(s1) && WellFormedNames(s2) && PartialInv(s1, s2, states, pairs, visited, done, seen)
    ensures PartialInv(s1, s2, states', pairs', visited', done, seen + {a})
    ensures |pairs| <= |pairs'| && pairs'[0] == pairs[0] && pairs'[done] == pairs[done]
  {
    states', pairs', visited' := states, pairs, visited;
    var p := pairs[done];
    var t1, t2 := s1[p.0].transitions, s2[p.1].transitions;
    if a in t1 && a in t2 {
      var q := (t1[a], t2[a]);
      var key := KeyOf(s1, s2, q);
      if key !in visited {
        AppendPair(s1, s2, states, pairs, visited, done, seen, q);
        states' := states + [DState(Pair(key.0, key.1), {}, map[], s1[q.0].isEnd && s2[q.1].isEnd)];
        pairs', visited' := pairs + [q], visited[key := |states|];
      }
      var target := visited'[key];
      KeyInjective(s1, s2, pairs'[target], q);
      var cur := states'[done];
      SetEdge(s1, s2, states', pairs', visited', done, seen, a, target);
      states' := states'[done := cur.(transitions := cur.transitions[a := target])];
    } else {
      SkipSymbol(s1, s2, states, pairs, visited, done, seen, a);
    }
  }

  /** The `for symbol in alphabet` loop for the dequeued pair `done`. */
  method Expand(s1: seq<DState>, s2: seq<DState>, alpha: set<string>, states: seq<DState>, pairs: seq<(nat, nat)>,
                visited: map<Key, nat>, done: nat)
    returns (states': seq<DState>, pairs': seq<(nat, nat)>, visited': map<Key, nat>)
    requires WellFormedNames(s1) && WellFormedNames(s2) && alpha == Common(s1, s2)
    requires PartialInv(s1, s2, states, pairs, visited, done, {})
    ensures PartialInv(s1, s2, states', pairs', visited', done, alpha)
    ensures |pairs| <= |pairs'| && pairs'[0] == pairs[0]
  {
    states', pairs', visited' := states, pairs, visited;
    var rest := alpha;
    ghost var seen: set<string> := {};
    while rest != {}
      invariant rest <= alpha && seen == alpha - rest
      invariant PartialInv(s1, s2, states', pairs', visited', done, seen)
      invariant |pairs| <= |pairs'| && pairs'[0] == pairs[0]
      decreases |rest|
    {
      var a :| a in rest;
      TakeOne(alpha, rest, seen, a);
      states', pairs', visited' := ExpandSymbol(s1, s2, states', pairs', visited', done, seen, a);
      seen, rest := seen + {a}, rest - {a};
    }
    TakeOne(alpha, rest, seen, "");
  }

  /** `intersect_dfa(dfa1, dfa2)`: the reachable part of the product, started from the pair of
      start states and named by name pairs. */
  method IntersectDfa(d1: Dfa, d2: Dfa) returns (d: Dfa, ghost pairs: seq<(nat, nat)>)
    requires d1.Valid() && d2.Valid()
    ensures fresh(d) && d.Valid() && d.start == 0
    ensures Product(d1.states, d2.states, d.states, pairs) && pairs[0] == (d1.start, d2.start)
    ensures forall w :: Accepts(d.states, d.start, w) <==> Accepts(d1.states, d1.start, w) && Accepts(d2.states, d2.start, w)
  {
    var s1, s2 := d1.states, d2.states;
    var states, queue := BuildProduct(s1, s2, (d1.start, d2.start));
    pairs := queue;
    d := new Dfa(0, states);
    forall w ensures Accepts(d.states, d.start, w) <==> Accepts(s1, d1.start, w) && Accepts(s2, d2.start, w) {
      ProductAccepts(s1, s2, states, pairs, w);
    }
  }

  /** The worklist loop of `intersect_dfa`: dequeue the pair `done`, expand it over the common
      alphabet, until the queue is empty. */
  method BuildProduct(s1: seq<DState>, s2: seq<DState>, start: (nat, nat)) returns (states: seq<DState>, queue: seq<(nat, nat)>)
    requires WellFormedNames(s1) && WellFormedNames(s2) && start.0 < |s1| && start.1 < |s2|
    ensures Product(s1, s2, states, queue) && NamesUnique(states) && 0 < |queue| && queue[0] == start
  {
    var a1 := Alphabet(s1);
    var a2 := Alphabet(s2);
    var alpha := a1 * a2;
    var startKey := KeyOf(s1, s2, start);
    states := [DState(Pair(startKey.0, startKey.1), {}, map[], s1[start.0].isEnd && s2[start.1].isEnd)];
    var visited := map[startKey := 0];
    queue := [start];
    var done := 0;
    while done < |states|
      invariant Inv(s1, s2, states, queue, visited, done) && 0 < |queue| && queue[0] == start
      decreases |s1| * |s2| - done
    {
      PairsBounded(s1, s2, queue, visited);
      InvToPartial(s1, s2, states, queue, visited, done);
      states, queue, visited := Expand(s1, s2, alpha, states, queue, visited, done);
      PartialToInv(s1, s2, states, queue, visited, done);
      done := done + 1;
    }
    PairsBounded(s1, s2, queue, visited);
    DistinctNames(s1, s2, states, queue, visited);
  }

  /** Distinct pairs give distinct product names. */
  lemma DistinctNames(s1: seq<DState>, s2: seq<DState>, states: seq<DState>, pairs: seq<(nat, nat)>, visited: map<Key, nat>)
    requires |states| == |pairs| && InRange(s1, s2, pairs) && Indexed(s1, s2, pairs, visited)
    requires forall k | 0 <= k < |states| :: Entry(s1, s2, states, pairs, k)
    ensures NamesUnique(states)
  {
    forall i, j | 0 <= i < j < |states| ensures states[i].name != states[j].name {
      assert Entry(s1, s2, states, pairs, i) && Entry(s1, s2, states, pairs, j);
      assert visited[KeyOf(s1, s2, pairs[i])] == i && visited[KeyOf(s1, s2, pairs[j])] == j;
    }
  }

  // ----- the language of the product -----

  /** From product state `k`, the run exists exactly when both halves' runs exist, and it ends in
      the state of the pair of their ends. */
  lemma {:induction false} ProductRun(s1: seq<DState>, s2: seq<DState>, states: seq<DState>, pairs: seq<(nat, nat)>,
                                      k: nat, w: string)
    requires Closed(s1) && Closed(s2) && Product(s1, s2, states, pairs) && k < |states|
    ensures Run(states, k, w).Some? <==> Run(s1, pairs[k].0, w).Some? && Run(s2, pairs[k].1, w).Some?
    ensures Run(states, k, w).Some? ==> pairs[Run(states, k, w).value] == (Run(s1, pairs[k].0, w).value, Run(s2, pairs[k].1, w).value)
    decreases |w|
  {
    if w != [] {
      var a, p := [w[0]], pairs[k];
      assert EdgesOn(s1, s2, states, pairs, k, Common(s1, s2));
      if a in s1[p.0].transitions && a in s2[p.1].transitions {
        assert a in AlphabetOf(s1) && a in AlphabetOf(s2);
        ProductRun(s1, s2, states, pairs, states[k].transitions[a], w[1..]);
      }
    }
  }

  /** The product accepts exactly the words both automata accept. */
  lemma ProductAccepts(s1: seq<DState>, s2: seq<DState>, states: seq<DState>, pairs: seq<(nat, nat)>, w: string)
    requires Closed(s1) && Closed(s2) && Product(s1, s2, states, pairs) && 0 < |states|
    ensures Accepts(states, 0, w) <==> Accepts(s1, pairs[0].0, w) && Accepts(s2, pairs[0].1, w)
  {
    ProductRun(s1, s2, states, pairs, 0, w);
    var r := Run(states, 0, w);
    if r.Some? {
      assert Entry(s1, s2, states, pairs, r.value);
    }
  }
}
