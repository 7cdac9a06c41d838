/** `dfa_to_regex` (Lab2/RegexDFA.py): Kleene's construction of a pattern text from a DFA.
    `R[k][i][j]` describes the paths from state `i` to state `j` whose intermediate states are all
    below `k`, and the text `"∅"` stands for "no such path". Only the text construction is
    modelled; what is proved is when an entry, and the result, is that `"∅"`. */
module DfaToRegex {
  import opened Wrappers
  import opened Sets
  import opened RegexDfa

  /** The texts the construction writes for "no path", "the empty word" and the star. */
  const EmptySet: string := "\U{2205}"
  const Epsilon: string := "\U{03B5}"
  const Star: string := "\U{2026}"

  // ----- the graph the matrix describes

  /** An edge from `i` to `j` on a symbol other than the text `"∅"`: the construction cannot tell
      an edge on that symbol from no edge at all. */
  ghost predicate Edge(states: seq<DState>, i: nat, j: nat)
    requires i < |states|
  {
    exists a | a in states[i].transitions :: states[i].transitions[a] == j && a != EmptySet
  }

  /** A path of length zero or more from `i` to `j` whose intermediate states are all below `k`,
      by the recursion the construction follows. */
  ghost predicate Reach(states: seq<DState>, k: nat, i: nat, j: nat)
    requires k <= |states| && i < |states| && j < |states|
  {
    if k == 0 then i == j || Edge(states, i, j)
    else Reach(states, k - 1, i, j) || (Reach(states, k - 1, i, k - 1) && Reach(states, k - 1, k - 1, j))
  }

  /** A sequence of states joined by edges, whose intermediate states are all below `k`. */
  ghost predicate IsPath(states: seq<DState>, p: seq<nat>, k: nat) {
    |p| >= 1
    && (forall t | 0 <= t < |p| :: p[t] < |states|)
    && (forall t | 0 <= t < |p| - 1 :: Edge(states, p[t], p[t + 1]))
    && (forall t | 0 < t < |p| - 1 :: p[t] < k)
  }

  /** The first position in `p[lo..]` holding `x`. */
  lemma {:induction false} FirstVisit(p: seq<nat>, x: nat, lo: nat, hi: nat) returns (f: nat)
    requires lo <= hi <= |p| && exists t | lo <= t < hi :: p[t] == x
    ensures lo <= f < hi && p[f] == x && forall t | lo <= t < f :: p[t] != x
    decreases hi - lo
  {
    if p[lo] == x {
      f := lo;
    } else {
      f := FirstVisit(p, x, lo + 1, hi);
    }
  }

  /** The last position in `p[..hi]` holding `x`. */
  lemma {:induction false} LastVisit(p: seq<nat>, x: nat, lo: nat, hi: nat) returns (l: nat)
    requires lo <= hi <= |p| && exists t | lo <= t < hi :: p[t] == x
    ensures lo <= l < hi && p[l] == x && forall t | l < t < hi :: p[t] != x
    decreases hi - lo
  {
    if p[hi - 1] == x {
      l := hi - 1;
    } else {
      l := LastVisit(p, x, lo, hi - 1);
    }
  }

  /** Every path is found by the recursion: a path through `k - 1` splits at its first and last
      visit of `k - 1` into two paths that avoid it. */
  lemma {:induction false} PathReach(states: seq<DState>, p: seq<nat>, k: nat)
    requires k <= |states| && IsPath(states, p, k)
    ensures Reach(states, k, p[0], p[|p| - 1])
    decreases k
  {
    var last := |p| - 1;
    if k == 0 {
      assert last >= 1 ==> Edge(states, p[0], p[1]);
    } else if forall t | 0 < t < last :: p[t] != k - 1 {
      PathReach(states, p, k - 1);
    } else {
      var f := FirstVisit(p, k - 1, 1, last);
      var l := LastVisit(p, k - 1, 1, last);
      var front, back := p[..f + 1], p[l..];
      assert IsPath(states, front, k - 1) by {
        forall t | 0 < t < |front| - 1 ensures front[t] < k - 1 {
          assert front[t] == p[t] && p[t] != k - 1;
        }
        forall t | 0 <= t < |front| - 1 ensures Edge(states, front[t], front[t + 1]) {
          assert front[t] == p[t] && front[t + 1] == p[t + 1];
        }
      }
      assert IsPath(states, back, k - 1) by {
        forall t | 0 < t < |back| - 1 ensures back[t] < k - 1 {
          assert back[t] == p[l + t] && p[l + t] != k - 1;
        }
        forall t | 0 <= t < |back| - 1 ensures Edge(states, back[t], back[t + 1]) {
          assert back[t] == p[l + t] && back[t + 1] == p[l + t + 1];
        }
      }
      PathReach(states, front, k - 1);
      PathReach(states, back, k - 1);
    }
  }

  /** Everything the recursion finds is a path: the two halves are joined at `k - 1`. */
  lemma {:induction false} ReachPath(states: seq<DState>, k: nat, i: nat, j: nat) returns (p: seq<nat>)
    requires k <= |states| && i < |states| && j < |states| && Reach(states, k, i, j)
    ensures IsPath(states, p, k) && p[0] == i && p[|p| - 1] == j
    decreases k
  {
    if k == 0 {
      p := if i == j then [i] else [i, j];
    } else if Reach(states, k - 1, i, j) {
      p := ReachPath(states, k - 1, i, j);
    } else {
      var front := ReachPath(states, k - 1, i, k - 1);
      var back := ReachPath(states, k - 1, k - 1, j);
      if |back| == 1 {
        p := front;
      } else {
        p := front + back[1..];
        var m := |front| - 1;
        forall t | 0 <= t < |p| - 1 ensures Edge(states, p[t], p[t + 1]) {
          if t < m {
            assert p[t] == front[t] && p[t + 1] == front[t + 1];
          } else {
            assert p[t] == back[t - m] && p[t + 1] == back[t - m + 1];
          }
        }
        forall t | 0 < t < |p| - 1 ensures p[t] < k {
          if t < m {
            assert p[t] == front[t];
          } else {
            assert p[t] == back[t - m];
          }
        }
        assert p[|p| - 1] == back[|back| - 1];
      }
    }
  }

  // ----- paths and words

  /** Every symbol is a single character other than `∅`, as for a DFA compiled from a pattern
      without a literal `∅`. */
  predicate SymbolsAreChars(states: seq<DState>) {
    forall k, a | 0 <= k < |states| && a in states[k].transitions :: |a| == 1 && a != EmptySet
  }

  /** The states a successful run visits form a path. */
  lemma {:induction false} WordPath(states: seq<DState>, i: nat, w: string) returns (p: seq<nat>)
    requires Closed(states) && SymbolsAreChars(states) && i < |states| && Run(states, i, w).Some?
    ensures IsPath(states, p, |states|) && p[0] == i && p[|p| - 1] == Run(states, i, w).value
    decreases |w|
  {
    if w == [] {
      p := [i];
    } else {
      var next := states[i].transitions[[w[0]]];
      var rest := WordPath(states, next, w[1..]);
      p := [i] + rest;
      assert Edge(states, i, next);
      forall t | 0 < t < |p| - 1 ensures Edge(states, p[t], p[t + 1]) {
        assert p[t] == rest[t - 1] && p[t + 1] == rest[t];
      }
    }
  }

  /** Every path is spelled by a word whose run follows it. */
  lemma {:induction false} PathWord(states: seq<DState>, p: seq<nat>, k: nat) returns (w: string)
    requires Closed(states) && SymbolsAreChars(states) && IsPath(states, p, k)
    ensures Run(states, p[0], w) == Some(p[|p| - 1])
    decreases |p|
  {
    if |p| == 1 {
      w := [];
    } else {
      assert Edge(states, p[0], p[1]);
      var a :| a in states[p[0]].transitions && states[p[0]].transitions[a] == p[1] && a != EmptySet;
      var tail := p[1..];
      assert IsPath(states, tail, k) by {
        forall t | 0 <= t < |tail| - 1 ensures Edge(states, tail[t], tail[t + 1]) {
          assert tail[t] == p[t + 1] && tail[t + 1] == p[t + 2];
        }
      }
      var rest := PathWord(states, tail, k);
      w := [a[0]] + rest;
      assert [w[0]] == a && w[1..] == rest;
    }
  }

  // ----- the base layer R[0]

  /** The symbols of `xs` that lead to `j`, in order. */
  function Targets(xs: seq<string>, t: map<string, nat>, j: nat): (r: seq<string>)
    ensures forall a | a in r :: a in xs && a in t && t[a] == j
    ensures forall a | a in xs && a in t && t[a] == j :: a in r
  {
    if xs == [] then []
    else
      var last := xs[|xs| - 1];
      Targets(xs[..|xs| - 1], t, j) + (if last in t && t[last] == j then [last] else [])
  }

  /** `R[0][i][j] = symbol if R[0][i][j] == "∅" else f"{R[0][i][j]}|{symbol}"` over the symbols
      `xs`, starting from `"∅"`. */
  function AltOf(xs: seq<string>): string {
    if xs == [] then EmptySet
    else
      var prev := AltOf(xs[..|xs| - 1]);
      if prev == EmptySet then xs[|xs| - 1] else prev + "|" + xs[|xs| - 1]
  }

  /** The alternation is `"∅"` exactly when every symbol in it is the text `"∅"`. */
  lemma {:induction false} AltOfEmpty(xs: seq<string>)
    ensures AltOf(xs) == EmptySet <==> forall a | a in xs :: a == EmptySet
  {
    if xs != [] {
      var init, last := xs[..|xs| - 1], xs[|xs| - 1];
      AltOfEmpty(init);
      assert xs == init + [last];
      assert forall a :: a in xs <==> a in init || a == last;
      var prev := AltOf(init);
      if prev != EmptySet {
        var r := prev + "|" + last;
        assert r[|prev|] == '|';
        assert r != EmptySet;
        var a :| a in init && a != EmptySet;
        assert a in xs;
      } else {
        assert AltOf(xs) == last && last in xs;
      }
    }
  }

  /** `R[0][i][j]` when the transitions `t` of state `i` are listed as `xs`: the alternation of the
      symbols leading to `j`, with `"ε"` in place of `"∅"` on the diagonal. */
  function BaseEntry(t: map<string, nat>, xs: seq<string>, i: nat, j: nat): string {
    var e := AltOf(Targets(xs, t, j));
    if i == j && e == EmptySet then Epsilon else e
  }

  /** `base` is `R[0]` for the listing `syms[i]` of each state's symbols. */
  ghost predicate BaseOf(states: seq<DState>, syms: seq<seq<string>>, base: seq<seq<string>>) {
    var n := |states|;
    |syms| == n && |base| == n
    && (forall i | 0 <= i < n :: Elems(syms[i]) == states[i].transitions.Keys && NoDup(syms[i]))
    && (forall i | 0 <= i < n :: |base[i]| == n)
    && (forall i, j | 0 <= i < n && 0 <= j < n :: base[i][j] == BaseEntry(states[i].transitions, syms[i], i, j))
  }

  /** What the base layer means: `"∅"` exactly off the diagonal where there is no edge, and `"ε"`
      on the diagonal of a state without a self-loop. */
  ghost predicate BaseOk(states: seq<DState>, base: seq<seq<string>>) {
    var n := |states|;
    |base| == n && (forall i | 0 <= i < n :: |base[i]| == n)
    && (forall i, j | 0 <= i < n && 0 <= j < n :: base[i][j] == EmptySet <==> i != j && !Edge(states, i, j))
    && (forall i | 0 <= i < n :: !Edge(states, i, i) ==> base[i][i] == Epsilon)
  }

  lemma BaseOfOk(states: seq<DState>, syms: seq<seq<string>>, base: seq<seq<string>>)
    requires BaseOf(states, syms, base)
    ensures BaseOk(states, base)
  {
    var n := |states|;
    forall i, j | 0 <= i < n && 0 <= j < n
      ensures AltOf(Targets(syms[i], states[i].transitions, j)) == EmptySet <==> !Edge(states, i, j)
    {
      var t := states[i].transitions;
      AltOfEmpty(Targets(syms[i], t, j));
      if Edge(states, i, j) {
        var a :| a in t && t[a] == j && a != EmptySet;
        assert a in Elems(syms[i]);
      }
    }
  }

  // ----- the layers R[k]

  /** One entry of layer `k` from layer `k - 1`: the old paths `rij`, or the paths through `k - 1`
      written `rik(rkk)…rkj`. */
  function Extend(rij: string, rik: string, rkk: string, rkj: string): (r: string)
    ensures r == EmptySet <==> rij == EmptySet && (rik == EmptySet || rkj == EmptySet)
    ensures rij != EmptySet ==> |rij| <= |r| && r[..|rij|] == rij
  {
    var part1 := if rik != EmptySet && rkj != EmptySet then rik + "(" + rkk + ")" + Star + rkj else EmptySet;
    if rij == EmptySet then part1 else if part1 == EmptySet then rij else rij + "|" + part1
  }

  predicate Square(base: seq<seq<string>>) {
    forall i | 0 <= i < |base| :: |base[i]| == |base|
  }

  /** `R[k][i][j]` for the base layer `base`. */
  ghost function PathExpr(base: seq<seq<string>>, k: nat, i: nat, j: nat): string
    requires Square(base) && k <= |base| && i < |base| && j < |base|
  {
    if k == 0 then base[i][j]
    else Extend(PathExpr(base, k - 1, i, j), PathExpr(base, k - 1, i, k - 1),
                PathExpr(base, k - 1, k - 1, k - 1), PathExpr(base, k - 1, k - 1, j))
  }

  /** An entry is `"∅"` exactly when there is no path of its kind. */
  lemma {:induction false} PathExprReach(states: seq<DState>, base: seq<seq<string>>, k: nat, i: nat, j: nat)
    requires BaseOk(states, base) && k <= |states| && i < |states| && j < |states|
    ensures PathExpr(base, k, i, j) != EmptySet <==> Reach(states, k, i, j)
    decreases k
  {
    if k > 0 {
      PathExprReach(states, base, k - 1, i, j);
      PathExprReach(states, base, k - 1, i, k - 1);
      PathExprReach(states, base, k - 1, k - 1, j);
    }
  }

  /** Diagonal entries are never `"∅"`, on any layer. */
  lemma {:induction false} DiagonalNeverEmpty(states: seq<DState>, base: seq<seq<string>>, k: nat, i: nat)
    requires BaseOk(states, base) && k <= |states| && i < |states|
    ensures PathExpr(base, k, i, i) != EmptySet
    decreases k
  {
    if k > 0 {
      DiagonalNeverEmpty(states, base, k - 1, i);
    }
  }

  // ----- assembling the result

  /** `[R[n][start][f] for f in finals if R[n][start][f] != "∅"]` over the first `m` states, where
      `row` is `R[n][start]`. */
  function Exprs(states: seq<DState>, row: seq<string>, m: nat): (r: seq<string>)
    requires m <= |states| && m <= |row|
    ensures forall e | e in r :: e != EmptySet
    ensures forall e | e in r :: exists f | 0 <= f < m :: states[f].isEnd && row[f] == e
    ensures r == [] <==> forall f | 0 <= f < m && states[f].isEnd :: row[f] == EmptySet
  {
    if m == 0 then []
    else
      var prev := Exprs(states, row, m - 1);
      if states[m - 1].isEnd && row[m - 1] != EmptySet then prev + [row[m - 1]] else prev
  }

  /** `"|".join(xs)` */
  function Join(xs: seq<string>): (r: string)
    requires xs != []
    ensures |xs| == 1 ==> r == xs[0]
    ensures |xs| > 1 ==> |r| > |xs[0]| && r[|xs[0]|] == '|'
  {
    if |xs| == 1 then xs[0] else xs[0] + "|" + Join(xs[1..])
  }

  /** `"∅" if not expressions else (expressions[0] if len(expressions) == 1 else "|".join(expressions))` */
  function Assemble(xs: seq<string>): (r: string)
    requires forall e | e in xs :: e != EmptySet
    ensures r == EmptySet <==> xs == []
  {
    assert |EmptySet| == 1 && (xs != [] ==> xs[0] in xs);
    if xs == [] then EmptySet else if |xs| == 1 then xs[0] else Join(xs)
  }

  /** The text `dfa_to_regex` returns for the base layer `base`. */
  ghost function RegexOf(states: seq<DState>, start: nat, base: seq<seq<string>>): string
    requires start < |states| && |base| == |states| && Square(base)
  {
    var n := |states|;
    Assemble(Exprs(states, seq(n, f requires 0 <= f < n => PathExpr(base, n, start, f)), n))
  }

  /** The result is `"∅"` exactly when no final state can be reached from the start. */
  lemma RegexOfEmpty(states: seq<DState>, start: nat, base: seq<seq<string>>)
    requires BaseOk(states, base) && start < |states|
    ensures RegexOf(states, start, base) == EmptySet <==>
            forall f | 0 <= f < |states| && states[f].isEnd :: !Reach(states, |states|, start, f)
  {
    var n := |states|;
    var row := seq(n, f requires 0 <= f < n => PathExpr(base, n, start, f));
    forall f | 0 <= f < n ensures row[f] != EmptySet <==> Reach(states, n, start, f) {
      PathExprReach(states, base, n, start, f);
    }
  }

  /** For a DFA over single characters, the result is `"∅"` exactly when the DFA accepts no word. */
  lemma RegexEmptyIffNoWord(states: seq<DState>, start: nat, base: seq<seq<string>>)
    requires Closed(states) && SymbolsAreChars(states) && BaseOk(states, base) && start < |states|
    ensures RegexOf(states, start, base) == EmptySet <==> forall w :: !Accepts(states, start, w)
  {
    RegexOfEmpty(states, start, base);
    var n := |states|;
    if RegexOf(states, start, base) == EmptySet {
      forall w ensures !Accepts(states, start, w) {
        if Accepts(states, start, w) {
          var p := WordPath(states, start, w);
          PathReach(states, p, n);
        }
      }
    } else {
      var f :| 0 <= f < n && states[f].isEnd && Reach(states, n, start, f);
      var p := ReachPath(states, n, start, f);
      var w := PathWord(states, p, n);
      assert Accepts(states, start, w);
    }
  }

  // ----- the matrix, filled in place

  /** The state of `R` while it is being filled: `n + 1` layers of `n` by `n` entries. */
  predicate Shaped(R: array3<string>, n: nat) {
    R.Length0 == n + 1 && R.Length1 == n && R.Length2 == n
  }

  /** One more symbol: the entry it leads to gains it as an alternative, the others stay. */
  lemma AltStep(xs: seq<string>, s: nat, t: map<string, nat>, j: nat)
    requires s < |xs| && xs[s] in t
    ensures var prev := AltOf(Targets(xs[..s], t, j));
            AltOf(Targets(xs[..s + 1], t, j)) ==
              if t[xs[s]] != j then prev else if prev == EmptySet then xs[s] else prev + "|" + xs[s]
  {
    TargetsStep(xs, s, t, j);
    if t[xs[s]] == j {
      AltOfSnoc(Targets(xs[..s], t, j), xs[s]);
    }
  }

  lemma TargetsStep(xs: seq<string>, s: nat, t: map<string, nat>, j: nat)
    requires s < |xs| && xs[s] in t
    ensures t[xs[s]] != j ==> Targets(xs[..s + 1], t, j) == Targets(xs[..s], t, j)
    ensures t[xs[s]] == j ==> Targets(xs[..s + 1], t, j) == Targets(xs[..s], t, j) + [xs[s]]
  {
    assert xs[..s + 1][..s] == xs[..s];
    assert Targets(xs[..s], t, j) + [] == Targets(xs[..s], t, j);
  }

  lemma AltOfSnoc(ys: seq<string>, a: string)
    ensures var prev := AltOf(ys); AltOf(ys + [a]) == if prev == EmptySet then a else prev + "|" + a
  {
    assert (ys + [a])[..|ys|] == ys;
  }

  /** The loop over `state.transitions.items()` for state `i`, then the `"ε"` on its diagonal. */
  method BaseRow(states: seq<DState>, R: array3<string>, i: nat) returns (xs: seq<string>)
    requires Closed(states) && Shaped(R, |states|) && i < |states|
    requires forall j | 0 <= j < |states| :: R[0, i, j] == EmptySet
    modifies R
    ensures Elems(xs) == states[i].transitions.Keys && NoDup(xs)
    ensures forall j | 0 <= j < |states| :: R[0, i, j] == BaseEntry(states[i].transitions, xs, i, j)
    ensures forall k, i', j | 0 <= k < R.Length0 && 0 <= i' < R.Length1 && 0 <= j < R.Length2 && (k != 0 || i' != i) ::
              R[k, i', j] == old(R[k, i', j])
  {
    var t := states[i].transitions;
    xs := SetToSeq(t.Keys);
    var s := 0;
    while s < |xs|
      invariant 0 <= s <= |xs|
      invariant forall j | 0 <= j < |states| :: R[0, i, j] == AltOf(Targets(xs[..s], t, j))
      invariant forall k, i', j | 0 <= k < R.Length0 && 0 <= i' < R.Length1 && 0 <= j < R.Length2 && (k != 0 || i' != i) ::
                  R[k, i', j] == old(R[k, i', j])
    {
      var a := xs[s];
      assert a in Elems(xs);
      var j := t[a];
      R[0, i, j] := if R[0, i, j] == EmptySet then a else R[0, i, j] + "|" + a;
      forall j' | 0 <= j' < |states| ensures R[0, i, j'] == AltOf(Targets(xs[..s + 1], t, j')) {
        AltStep(xs, s, t, j');
      }
      s := s + 1;
    }
    assert xs[..s] == xs;
    if R[0, i, i] == EmptySet {
      R[0, i, i] := Epsilon;
    }
  }

  /** The first loop of `dfa_to_regex`: layer 0 from the transitions, state by state. */
  method BaseLayer(states: seq<DState>, R: array3<string>) returns (ghost syms: seq<seq<string>>)
    requires Closed(states) && Shaped(R, |states|)
    requires forall i, j | 0 <= i < |states| && 0 <= j < |states| :: R[0, i, j] == EmptySet
    modifies R
    ensures BaseOf(states, syms, Layer(R, 0))
  {
    var n := |states|;
    syms := [];
    var i := 0;
    while i < n
      invariant 0 <= i <= n && |syms| == i
      invariant forall i' | 0 <= i' < i :: Elems(syms[i']) == states[i'].transitions.Keys && NoDup(syms[i'])
      invariant forall i', j | 0 <= i' < i && 0 <= j < n :: R[0, i', j] == BaseEntry(states[i'].transitions, syms[i'], i', j)
      invariant forall i', j | i <= i' < n && 0 <= j < n :: R[0, i', j] == EmptySet
    {
      var xs := BaseRow(states, R, i);
      syms := syms + [xs];
      i := i + 1;
    }
  }

  /** Layer `k` of `R` as a square of texts. */
  ghost function Layer(R: array3<string>, k: nat): (base: seq<seq<string>>)
    requires k < R.Length0 && R.Length1 == R.Length2
    reads R
    ensures |base| == R.Length1 && Square(base)
    ensures forall i, j | 0 <= i < R.Length1 && 0 <= j < R.Length1 :: base[i][j] == R[k, i, j]
  {
    seq(R.Length1, i requires 0 <= i < R.Length1 reads R => seq(R.Length2, j requires 0 <= j < R.Length2 reads R => R[k, i, j]))
  }

  /** The innermost loop of the second phase: row `i` of layer `k` from layer `k - 1`. */
  method LayerRow(R: array3<string>, n: nat, k: nat, i: nat)
    requires Shaped(R, n) && 1 <= k <= n && i < n
    modifies R
    ensures forall j | 0 <= j < n ::
              R[k, i, j] == Extend(R[k - 1, i, j], R[k - 1, i, k - 1], R[k - 1, k - 1, k - 1], R[k - 1, k - 1, j])
    ensures forall k', i', j | 0 <= k' <= n && 0 <= i' < n && 0 <= j < n && (k' != k || i' != i) ::
              R[k', i', j] == old(R[k', i', j])
  {
    var j := 0;
    while j < n
      invariant 0 <= j <= n
      invariant forall j' | 0 <= j' < j ::
                  R[k, i, j'] == Extend(R[k - 1, i, j'], R[k - 1, i, k - 1], R[k - 1, k - 1, k - 1], R[k - 1, k - 1, j'])
      invariant forall k', i', j' | 0 <= k' <= n && 0 <= i' < n && 0 <= j' < n && (k' != k || i' != i) ::
                  R[k', i', j'] == old(R[k', i', j'])
    {
      var rik, rkk, rkj := R[k - 1, i, k - 1], R[k - 1, k - 1, k - 1], R[k - 1, k - 1, j];
      var rij := R[k - 1, i, j];
      R[k, i, j] := Extend(rij, rik, rkk, rkj);
      j := j + 1;
    }
  }

  /** The middle loop of the second phase: layer `k` from layer `k - 1`. */
  method NextLayer(R: array3<string>, n: nat, k: nat)
    requires Shaped(R, n) && 1 <= k <= n
    modifies R
    ensures forall i, j | 0 <= i < n && 0 <= j < n ::
              R[k, i, j] == Extend(R[k - 1, i, j], R[k - 1, i, k - 1], R[k - 1, k - 1, k - 1], R[k - 1, k - 1, j])
    ensures forall k', i, j | 0 <= k' <= n && k' != k && 0 <= i < n && 0 <= j < n :: R[k', i, j] == old(R[k', i, j])
  {
    var i := 0;
    while i < n
      invariant 0 <= i <= n
      invariant forall i', j | 0 <= i' < i && 0 <= j < n ::
                  R[k, i', j] == Extend(R[k - 1, i', j], R[k - 1, i', k - 1], R[k - 1, k - 1, k - 1], R[k - 1, k - 1, j])
      invariant forall k', i', j | 0 <= k' <= n && k' != k && 0 <= i' < n && 0 <= j < n :: R[k', i', j] == old(R[k', i', j])
    {
      LayerRow(R, n, k, i);
      i := i + 1;
    }
  }

  /** The second phase of `dfa_to_regex`: layers `1 .. n`, each from the one before. */
  method FillLayers(R: array3<string>, n: nat, ghost base: seq<seq<string>>)
    requires Shaped(R, n) && |base| == n && Square(base)
    requires forall i, j | 0 <= i < n && 0 <= j < n :: R[0, i, j] == base[i][j]
    modifies R
    ensures forall k, i, j | 0 <= k <= n && 0 <= i < n && 0 <= j < n :: R[k, i, j] == PathExpr(base, k, i, j)
  {
    var k := 1;
    while k <= n
      invariant 1 <= k <= n + 1
      invariant forall k', i, j | 0 <= k' < k && 0 <= i < n && 0 <= j < n :: R[k', i, j] == PathExpr(base, k', i, j)
    {
      NextLayer(R, n, k);
      forall i, j | 0 <= i < n && 0 <= j < n ensures R[k, i, j] == PathExpr(base, k, i, j) {
        assert R[k - 1, i, j] == PathExpr(base, k - 1, i, j);
      }
      k := k + 1;
    }
  }

  /** `finals` and `expressions`: the entries of `R[n][start]` at final states that are not `"∅"`. */
  method Expressions(states: seq<DState>, R: array3<string>, start: nat, ghost row: seq<string>) returns (expressions: seq<string>)
    requires Shaped(R, |states|) && start < |states| && |row| == |states|
    requires forall f | 0 <= f < |states| :: R[|states|, start, f] == row[f]
    ensures expressions == Exprs(states, row, |states|)
  {
    var n := |states|;
    expressions := [];
    var f := 0;
    while f < n
      invariant 0 <= f <= n && expressions == Exprs(states, row, f)
    {
      if states[f].isEnd && R[n, start, f] != EmptySet {
        expressions := expressions + [R[n, start, f]];
      }
      f := f + 1;
    }
  }

  /** `dfa_to_regex(dfa)`: fills `R`, then joins the non-`"∅"` entries from the start to the
      final states. The result is `"∅"` exactly when no final state can be reached. */
  method DfaToRegex(d: Dfa) returns (r: string, ghost syms: seq<seq<string>>, ghost base: seq<seq<string>>)
    requires d.Valid()
    ensures BaseOf(d.states, syms, base)
    ensures r == RegexOf(d.states, d.start, base)
    ensures r == EmptySet <==>
            forall f | 0 <= f < |d.states| && d.states[f].isEnd :: !Reach(d.states, |d.states|, d.start, f)
  {
    var states := d.states;
    var n := |states|;
    var R := new string[n + 1, n, n]((_, _, _) => EmptySet);
    syms := BaseLayer(states, R);
    base := Layer(R, 0);
    FillLayers(R, n, base);
    var start := d.start;
    ghost var row := seq(n, f requires 0 <= f < n => PathExpr(base, n, start, f));
    var expressions := Expressions(states, R, start, row);
    r := if expressions == [] then EmptySet else if |expressions| == 1 then expressions[0] else Join(expressions);
    BaseOfOk(states, syms, base);
    RegexOfEmpty(states, start, base);
  }
}
