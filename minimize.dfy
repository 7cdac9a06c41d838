/** `minimize_dfa` (Lab2/RegexDFA.py): partition refinement by transition signatures, then one
    state per partition.

    A partition is a sequence of groups of state indices; `state_to_partition` is the map from a
    state to the index of its group. */
module Minimize {
  import opened Wrappers
  import opened Sets
  import opened RegexDfa

  // ----- partitions -----

  /** All states of all groups. */
  ghost function Union(parts: seq<set<nat>>): set<nat> {
    set k, x | 0 <= k < |parts| && x in parts[k] :: x
  }

  ghost predicate Disjoint(parts: seq<set<nat>>) {
    forall i, j | 0 <= i < j < |parts| :: parts[i] !! parts[j]
  }

  ghost predicate NonEmpty(parts: seq<set<nat>>) {
    forall i | 0 <= i < |parts| :: parts[i] != {}
  }

  /** The groups split the states `0 .. n-1`. */
  ghost predicate PartitionOf(parts: seq<set<nat>>, n: nat) {
    Disjoint(parts) && Union(parts) == Range(n)
  }

  /** `stp` sends each state to the index of its group. */
  ghost predicate IndexOf(parts: seq<set<nat>>, stp: map<nat, nat>) {
    stp.Keys == Union(parts) && forall i, x | 0 <= i < |parts| && x in parts[i] :: stp[x] == i
  }

  /** No group holds both a final and a non-final state. */
  ghost predicate NoMix(states: seq<DState>, parts: seq<set<nat>>) {
    forall i, x, y | 0 <= i < |parts| && x in parts[i] && y in parts[i] && x < |states| && y < |states| ::
      states[x].isEnd == states[y].isEnd
  }

  /** The number of non-empty groups. */
  ghost function CountNonEmpty(parts: seq<set<nat>>): nat {
    if parts == [] then 0
    else CountNonEmpty(parts[..|parts| - 1]) + (if parts[|parts| - 1] != {} then 1 else 0)
  }

  lemma UnionAppend(a: seq<set<nat>>, b: seq<set<nat>>)
    ensures Union(a + b) == Union(a) + Union(b)
  {
    forall x | x in Union(a + b) ensures x in Union(a) + Union(b) {
      var k :| 0 <= k < |a + b| && x in (a + b)[k];
      if k < |a| {
        assert (a + b)[k] == a[k];
      } else {
        assert (a + b)[k] == b[k - |a|];
      }
    }
    forall x | x in Union(a) ensures x in Union(a + b) {
      var k :| 0 <= k < |a| && x in a[k];
      assert (a + b)[k] == a[k];
    }
    forall x | x in Union(b) ensures x in Union(a + b) {
      var k :| 0 <= k < |b| && x in b[k];
      assert (a + b)[|a| + k] == b[k];
    }
  }

  lemma UnionSingle(g: set<nat>)
    ensures Union([g]) == g
  {
    forall x | x in g ensures x in Union([g]) {
      assert [g][0] == g;
    }
  }

  /** The groups before index `i` share no state with group `i`. */
  lemma PrefixDisjoint(parts: seq<set<nat>>, i: nat)
    requires Disjoint(parts) && i < |parts|
    ensures Union(parts[..i]) !! parts[i]
  {
    forall x | x in Union(parts[..i]) ensures x !in parts[i] {
      var k :| 0 <= k < i && x in parts[..i][k];
      assert parts[..i][k] == parts[k];
    }
  }

  lemma AppendDisjoint(a: seq<set<nat>>, b: seq<set<nat>>)
    requires Disjoint(a) && Disjoint(b) && Union(a) !! Union(b)
    ensures Disjoint(a + b)
  {
    forall i, j | 0 <= i < j < |a + b| ensures (a + b)[i] !! (a + b)[j] {
      if j < |a| {
        assert (a + b)[i] == a[i] && (a + b)[j] == a[j];
      } else if i < |a| {
        assert (a + b)[i] == a[i] && (a + b)[j] == b[j - |a|];
        forall x | x in a[i] ensures x !in b[j - |a|] {
          assert x in Union(a);
        }
      } else {
        assert (a + b)[i] == b[i - |a|] && (a + b)[j] == b[j - |a|];
      }
    }
  }

  /** There are at most as many non-empty disjoint groups as states in them. */
  lemma {:induction false} CountBound(parts: seq<set<nat>>)
    requires Disjoint(parts)
    ensures CountNonEmpty(parts) <= |Union(parts)|
  {
    if parts != [] {
      var m := |parts| - 1;
      var p := parts[..m];
      assert Disjoint(p);
      CountBound(p);
      assert parts == p + [parts[m]];
      UnionAppend(p, [parts[m]]);
      UnionSingle(parts[m]);
      PrefixDisjoint(parts, m);
      if parts[m] != {} {
        var x :| x in parts[m];
        assert |parts[m]| >= 1;
      }
    }
  }

  lemma CountStep(parts: seq<set<nat>>, i: nat)
    requires i < |parts|
    ensures CountNonEmpty(parts[..i + 1]) == CountNonEmpty(parts[..i]) + (if parts[i] != {} then 1 else 0)
  {
    assert parts[..i + 1][..i] == parts[..i];
  }

  lemma {:induction false} CountAllNonEmpty(parts: seq<set<nat>>)
    requires NonEmpty(parts)
    ensures CountNonEmpty(parts) == |parts|
  {
    if parts != [] {
      var p := parts[..|parts| - 1];
      assert NonEmpty(p);
      CountAllNonEmpty(p);
    }
  }

  /** `{s: i for i, group in enumerate(partitions) for s in group}` */
  function IndexMap(parts: seq<set<nat>>): (stp: map<nat, nat>)
    requires Disjoint(parts)
    ensures IndexOf(parts, stp)
  {
    if parts == [] then map[]
    else
      var m := |parts| - 1;
      assert Disjoint(parts[..m]);
      var inner := IndexMap(parts[..m]);
      IndexMapSnoc(parts, inner);
      inner + Constant(parts[m], m)
  }

  /** Every state of `g` sent to `i`. */
  function Constant(g: set<nat>, i: nat): (c: map<nat, nat>)
    ensures c.Keys == g && forall x | x in g :: c[x] == i
  {
    map x | x in g :: i
  }

  /** Numbering the last group after the others. */
  lemma IndexMapSnoc(parts: seq<set<nat>>, inner: map<nat, nat>)
    requires Disjoint(parts) && parts != [] && IndexOf(parts[..|parts| - 1], inner)
    ensures IndexOf(parts, inner + Constant(parts[|parts| - 1], |parts| - 1))
  {
    var m := |parts| - 1;
    var p := parts[..m];
    UnionAppend(p, [parts[m]]);
    UnionSingle(parts[m]);
    assert parts == p + [parts[m]];
    PrefixDisjoint(parts, m);
    assert forall i, x | 0 <= i < m && x in parts[i] :: x in p[i] && x !in parts[m];
  }

  // ----- signatures -----

  /** `state_to_partition.get(state.transitions.get(sym), -1)` */
  function Lookup(t: map<string, nat>, stp: map<nat, nat>, a: string): int {
    if a in t && t[a] in stp then stp[t[a]] else -1
  }

  /** The signature of state `x`: the group of its target on each symbol, `-1` for none. */
  function Signature(states: seq<DState>, stp: map<nat, nat>, syms: seq<string>, x: nat): seq<int>
    requires x < |states|
  {
    seq(|syms|, j requires 0 <= j < |syms| => Lookup(states[x].transitions, stp, syms[j]))
  }

  /** The states with signature `s`. */
  ghost function SigClass(states: seq<DState>, stp: map<nat, nat>, syms: seq<string>, s: seq<int>): set<nat> {
    set x | 0 <= x < |states| && Signature(states, stp, syms, x) == s
  }

  /** Every state of a group has the same signature. */
  ghost predicate Stable(states: seq<DState>, syms: seq<string>, parts: seq<set<nat>>, stp: map<nat, nat>) {
    forall j, x, y | 0 <= j < |parts| && x in parts[j] && y in parts[j] && x < |states| && y < |states| ::
      Signature(states, stp, syms, x) == Signature(states, stp, syms, y)
  }

  /** Equal signatures under one numbering stay equal under another numbering of the same groups. */
  lemma SignatureTransfer(states: seq<DState>, syms: seq<string>, stp: map<nat, nat>, stp': map<nat, nat>, x: nat, y: nat)
    requires Closed(states) && x < |states| && y < |states|
    requires stp.Keys == stp'.Keys == Range(|states|)
    requires forall s, t | s in stp && t in stp && stp[s] == stp[t] :: stp'[s] == stp'[t]
    requires Signature(states, stp, syms, x) == Signature(states, stp, syms, y)
    ensures Signature(states, stp', syms, x) == Signature(states, stp', syms, y)
  {
    var tx, ty := states[x].transitions, states[y].transitions;
    forall j | 0 <= j < |syms| ensures Lookup(tx, stp', syms[j]) == Lookup(ty, stp', syms[j]) {
      assert Signature(states, stp, syms, x)[j] == Signature(states, stp, syms, y)[j];
      var a := syms[j];
      if a in tx {
        assert tx[a] < |states|;
      }
      if a in ty {
        assert ty[a] < |states|;
      }
    }
  }

  // ----- one pass -----

  /** `splits` after the states `done` of a group: each bucket is non-empty and holds exactly
      the states seen so far with its signature. */
  ghost predicate Buckets(states: seq<DState>, stp: map<nat, nat>, syms: seq<string>,
                          splits: map<seq<int>, set<nat>>, done: set<nat>)
  {
    (forall s | s in splits :: splits[s] != {} && splits[s] <= done)
    && (forall s, x | s in splits && x in splits[s] :: x < |states| && Signature(states, stp, syms, x) == s)
    && (forall x | x in done :: x < |states| && Signature(states, stp, syms, x) in splits
                                && x in splits[Signature(states, stp, syms, x)])
  }

  /** `splits.setdefault(sig, set()).add(state)` */
  lemma BucketAdd(states: seq<DState>, stp: map<nat, nat>, syms: seq<string>,
                  splits: map<seq<int>, set<nat>>, done: set<nat>, x: nat)
    requires Buckets(states, stp, syms, splits, done) && x < |states|
    ensures var sig := Signature(states, stp, syms, x);
            Buckets(states, stp, syms, splits[sig := if sig in splits then splits[sig] + {x} else {x}], done + {x})
  {
  }

  /** The buckets listed in insertion order. */
  lemma BucketsListed(states: seq<DState>, stp: map<nat, nat>, syms: seq<string>,
                      splits: map<seq<int>, set<nat>>, group: set<nat>, order: seq<seq<int>>, vals: seq<set<nat>>)
    requires Buckets(states, stp, syms, splits, group) && Elems(order) == splits.Keys && NoDup(order)
    requires |vals| == |order| && forall j | 0 <= j < |order| :: vals[j] == splits[order[j]]
    ensures NonEmpty(vals) && Disjoint(vals) && Union(vals) == group
    ensures forall j | 0 <= j < |vals| :: vals[j] <= SigClass(states, stp, syms, order[j])
  {
    ListedCover(states, stp, syms, splits, group, order, vals);
    ListedSigs(states, stp, syms, splits, group, order, vals);
    forall i, j | 0 <= i < j < |vals| ensures vals[i] !! vals[j] {
      assert vals[i] <= SigClass(states, stp, syms, order[i]) && vals[j] <= SigClass(states, stp, syms, order[j]);
    }
  }

  lemma ListedCover(states: seq<DState>, stp: map<nat, nat>, syms: seq<string>,
                    splits: map<seq<int>, set<nat>>, group: set<nat>, order: seq<seq<int>>, vals: seq<set<nat>>)
    requires Buckets(states, stp, syms, splits, group) && Elems(order) == splits.Keys
    requires |vals| == |order| && forall j | 0 <= j < |order| :: vals[j] == splits[order[j]]
    ensures NonEmpty(vals) && Union(vals) == group
  {
    forall x | x in group ensures x in Union(vals) {
      var s := Signature(states, stp, syms, x);
      assert s in Elems(order);
      var j :| 0 <= j < |order| && order[j] == s;
      assert x in vals[j];
    }
    forall j | 0 <= j < |vals| ensures vals[j] != {} && vals[j] <= group {
      assert order[j] in Elems(order);
    }
    forall x | x in Union(vals) ensures x in group {
      var j :| 0 <= j < |vals| && x in vals[j];
      assert order[j] in Elems(order);
    }
  }

  lemma ListedSigs(states: seq<DState>, stp: map<nat, nat>, syms: seq<string>,
                   splits: map<seq<int>, set<nat>>, group: set<nat>, order: seq<seq<int>>, vals: seq<set<nat>>)
    requires Buckets(states, stp, syms, splits, group) && Elems(order) == splits.Keys
    requires |vals| == |order| && forall j | 0 <= j < |order| :: vals[j] == splits[order[j]]
    ensures forall j | 0 <= j < |vals| :: vals[j] <= SigClass(states, stp, syms, order[j])
  {
    forall j | 0 <= j < |vals| ensures vals[j] <= SigClass(states, stp, syms, order[j]) {
      assert order[j] in Elems(order);
      forall x | x in vals[j] ensures x in SigClass(states, stp, syms, order[j]) {
        var _ := Signature(states, stp, syms, x);
      }
    }
  }

  /** `splits`: the states of one group bucketed by signature, with `order` the dictionary's
      insertion order. */
  method SplitGroup(states: seq<DState>, stp: map<nat, nat>, syms: seq<string>, group: set<nat>)
    returns (sigs: seq<seq<int>>, vals: seq<set<nat>>)
    requires forall x | x in group :: x < |states|
    ensures |vals| == |sigs| && NoDup(sigs) && NonEmpty(vals) && Disjoint(vals) && Union(vals) == group
    ensures forall j | 0 <= j < |vals| :: vals[j] <= SigClass(states, stp, syms, sigs[j])
  {
    var splits: map<seq<int>, set<nat>> := map[];
    var order: seq<seq<int>> := [];
    var rest := group;
    ghost var done: set<nat> := {};
    while rest != {}
      invariant rest <= group && done == group - rest && Elems(order) == splits.Keys && NoDup(order)
      invariant Buckets(states, stp, syms, splits, done)
      decreases |rest|
    {
      var x :| x in rest;
      var sig := Signature(states, stp, syms, x);
      BucketAdd(states, stp, syms, splits, done, x);
      TakeOne(group, rest, done, x);
      done := done + {x};
      if sig in splits {
        KeysUpdate(splits, sig, splits[sig] + {x});
        splits := splits[sig := splits[sig] + {x}];
      } else {
        NoDupAppend(order, sig);
        KeysUpdate(splits, sig, {x});
        splits := splits[sig := {x}];
        order := order + [sig];
      }
      rest := rest - {x};
    }
    TakeOne(group, rest, done, 0);
    sigs := order;
    vals := seq(|order|, j requires 0 <= j < |order| => splits[order[j]]);
    BucketsListed(states, stp, syms, splits, group, order, vals);
  }

  /** What one pass of `Refine` leaves behind: the new groups split the same states, each lies
      inside the old group `origin[j]` and inside the signature class `gsig[j]`, there are at least
      as many groups as before (one more when something split), and a quiet pass kept every group. */
  ghost predicate Refined(states: seq<DState>, syms: seq<string>, parts: seq<set<nat>>, stp: map<nat, nat>,
                          parts': seq<set<nat>>, changed: bool, origin: seq<nat>, gsig: seq<seq<int>>) {
    RefinedUpTo(states, syms, parts, |parts|, stp, parts', changed, origin, gsig)
  }

  /** `Refined` for the first `i` old groups. */
  ghost predicate RefinedUpTo(states: seq<DState>, syms: seq<string>, parts: seq<set<nat>>, i: nat, stp: map<nat, nat>,
                              parts': seq<set<nat>>, changed: bool, origin: seq<nat>, gsig: seq<seq<int>>)
    requires i <= |parts|
  {
    Disjoint(parts') && NonEmpty(parts') && Union(parts') == Union(parts[..i])
    && |origin| == |parts'| == |gsig|
    && (forall j | 0 <= j < |parts'| :: origin[j] < i && parts'[j] <= parts[origin[j]])
    && (forall j | 0 <= j < |parts'| :: parts'[j] <= SigClass(states, stp, syms, gsig[j]))
    && |parts'| >= CountNonEmpty(parts[..i]) + (if changed then 1 else 0)
    && (!changed ==> forall k | 0 <= k < i && parts[k] != {} :: parts[k] in parts')
  }

  /** The body of `while changed`: every group is split by signature, `changed` records whether
      some group fell apart. `origin[j]` is the old group that new group `j` came from, `gsig[j]`
      its common signature. */
  method Refine(states: seq<DState>, syms: seq<string>, parts: seq<set<nat>>, stp: map<nat, nat>)
    returns (parts': seq<set<nat>>, changed: bool, ghost origin: seq<nat>, ghost gsig: seq<seq<int>>)
    requires Disjoint(parts) && forall x | x in Union(parts) :: x < |states|
    ensures Refined(states, syms, parts, stp, parts', changed, origin, gsig)
  {
    parts', changed, origin, gsig := [], false, [], [];
    var i := 0;
    while i < |parts|
      invariant 0 <= i <= |parts| && RefinedUpTo(states, syms, parts, i, stp, parts', changed, origin, gsig)
    {
      var group := parts[i];
      assert forall x | x in group :: x in Union(parts);
      var sigs, vals := SplitGroup(states, stp, syms, group);
      RefineAdvance(states, syms, parts, i, stp, parts', changed, origin, gsig, sigs, vals);
      parts', changed, origin, gsig := parts' + vals, changed || |vals| > 1, origin + seq(|vals|, _ => i), gsig + sigs;
      i := i + 1;
    }
  }

  /** Appending the split of old group `i` extends `RefinedUpTo` by one group. */
  lemma RefineAdvance(states: seq<DState>, syms: seq<string>, parts: seq<set<nat>>, i: nat, stp: map<nat, nat>,
                      acc: seq<set<nat>>, changed: bool, origin: seq<nat>, gsig: seq<seq<int>>,
                      sigs: seq<seq<int>>, vals: seq<set<nat>>)
    requires Disjoint(parts) && i < |parts| && RefinedUpTo(states, syms, parts, i, stp, acc, changed, origin, gsig)
    requires |vals| == |sigs| && NonEmpty(vals) && Disjoint(vals) && Union(vals) == parts[i]
    requires forall j | 0 <= j < |vals| :: vals[j] <= SigClass(states, stp, syms, sigs[j])
    ensures RefinedUpTo(states, syms, parts, i + 1, stp, acc + vals, changed || |vals| > 1,
                        origin + seq(|vals|, _ => i), gsig + sigs)
  {
    var group := parts[i];
    RefineStep(parts, i, acc, vals);
    if |vals| == 1 {
      UnionSingle(vals[0]);
      assert vals[0] == group;
    }
    forall j, x | 0 <= j < |vals| && x in vals[j] ensures x in group {
      assert x in Union(vals);
    }
    CountStep(parts, i);
    AppendSigs(states, stp, syms, acc, gsig, vals, sigs);
  }

  /** Appending groups with their signatures keeps every group's signature. */
  lemma AppendSigs(states: seq<DState>, stp: map<nat, nat>, syms: seq<string>,
                   acc: seq<set<nat>>, gsig: seq<seq<int>>, vals: seq<set<nat>>, sigs: seq<seq<int>>)
    requires |acc| == |gsig| && |vals| == |sigs|
    requires forall j | 0 <= j < |acc| :: acc[j] <= SigClass(states, stp, syms, gsig[j])
    requires forall j | 0 <= j < |vals| :: vals[j] <= SigClass(states, stp, syms, sigs[j])
    ensures forall j | 0 <= j < |acc + vals| :: (acc + vals)[j] <= SigClass(states, stp, syms, (gsig + sigs)[j])
  {
    forall j | 0 <= j < |acc + vals| ensures (acc + vals)[j] <= SigClass(states, stp, syms, (gsig + sigs)[j]) {
      if j < |acc| {
        assert (acc + vals)[j] == acc[j] && (gsig + sigs)[j] == gsig[j];
      } else {
        assert (acc + vals)[j] == vals[j - |acc|] && (gsig + sigs)[j] == sigs[j - |acc|];
      }
    }
  }

  /** Appending the splits of group `i` keeps the new groups disjoint, non-empty, and covering the
      groups seen so far. */
  lemma RefineStep(parts: seq<set<nat>>, i: nat, acc: seq<set<nat>>, vals: seq<set<nat>>)
    requires Disjoint(parts) && i < |parts|
    requires Disjoint(acc) && NonEmpty(acc) && Union(acc) == Union(parts[..i])
    requires Disjoint(vals) && NonEmpty(vals) && Union(vals) == parts[i]
    ensures Disjoint(acc + vals) && NonEmpty(acc + vals) && Union(acc + vals) == Union(parts[..i + 1])
    ensures vals == [] <==> parts[i] == {}
  {
    PrefixDisjoint(parts, i);
    AppendDisjoint(acc, vals);
    UnionAppend(acc, vals);
    assert parts[..i + 1] == parts[..i] + [parts[i]];
    UnionAppend(parts[..i], [parts[i]]);
    UnionSingle(parts[i]);
    if vals != [] {
      var x :| x in vals[0];
      assert x in Union(vals);
    }
  }

  // ----- the refinement loop -----

  /** The partition `minimize_dfa` settles on: it covers every state exactly once, with no empty
      group, no group mixing final and non-final states, and every group stable (its states agree
      on the group of each transition). */
  method Refinement(states: seq<DState>) returns (syms: seq<string>, parts: seq<set<nat>>, stp: map<nat, nat>)
    requires Closed(states) && 0 < |states|
    ensures Elems(syms) == AlphabetOf(states) && NoDup(syms)
    ensures PartitionOf(parts, |states|) && NonEmpty(parts) && IndexOf(parts, stp)
    ensures NoMix(states, parts) && Stable(states, syms, parts, stp)
    ensures |parts| <= |states|
  {
    var n := |states|;
    var alphabet := Alphabet(states);
    syms := SetToSeq(alphabet);
    var finals := set x | 0 <= x < n && states[x].isEnd;
    var nonFinals := Range(n) - finals;
    parts := if nonFinals != {} then [finals, nonFinals] else [finals];
    InitialPartition(states, finals, nonFinals, parts);
    stp := IndexMap(parts);
    var changed := true;
    while changed
      invariant Settling(states, syms, parts, stp, changed)
      decreases n + 1 - CountNonEmpty(parts) + (if changed then 1 else 0)
    {
      var parts', changed', origin, gsig := Refine(states, syms, parts, stp);
      var stp' := IndexMap(parts');
      PassKeeps(states, syms, parts, stp, parts', changed', origin, gsig, stp');
      parts, stp, changed := parts', stp', changed';
    }
    CountBound(parts);
    CountAllNonEmpty(parts);
  }

  /** The refinement loop's state: a numbered partition of the states that never mixes final and
      non-final states, and that is stable once a pass has split nothing. */
  ghost predicate Settling(states: seq<DState>, syms: seq<string>, parts: seq<set<nat>>, stp: map<nat, nat>, changed: bool) {
    PartitionOf(parts, |states|) && IndexOf(parts, stp) && NoMix(states, parts)
    && CountNonEmpty(parts) <= |states|
    && (!changed ==> NonEmpty(parts) && Stable(states, syms, parts, stp))
  }

  /** `[final_states, non_final_states]`, or `[final_states]` when every state is final. */
  lemma InitialPartition(states: seq<DState>, finals: set<nat>, nonFinals: set<nat>, parts: seq<set<nat>>)
    requires 0 < |states| && finals == set x | 0 <= x < |states| && states[x].isEnd
    requires nonFinals == Range(|states|) - finals
    requires parts == if nonFinals != {} then [finals, nonFinals] else [finals]
    ensures PartitionOf(parts, |states|) && NoMix(states, parts) && CountNonEmpty(parts) <= |states|
  {
    FinalSplit(states, finals, nonFinals);
    InitialCover(finals, nonFinals, |states|, parts);
    CountBound(parts);
    InitialNoMix(states, finals, nonFinals, parts);
  }

  /** The final and the non-final states split `0 .. n-1`. */
  lemma FinalSplit(states: seq<DState>, finals: set<nat>, nonFinals: set<nat>)
    requires finals == set x | 0 <= x < |states| && states[x].isEnd
    requires nonFinals == Range(|states|) - finals
    ensures forall x | x in finals :: x < |states| && states[x].isEnd
    ensures forall x | x in nonFinals :: x < |states| && !states[x].isEnd
    ensures finals + nonFinals == Range(|states|) && finals !! nonFinals
  {
    forall x | x in nonFinals ensures x < |states| && !states[x].isEnd {
      assert x in Range(|states|) && x !in finals;
    }
  }

  lemma InitialCover(finals: set<nat>, nonFinals: set<nat>, n: nat, parts: seq<set<nat>>)
    requires finals + nonFinals == Range(n) && finals !! nonFinals
    requires parts == if nonFinals != {} then [finals, nonFinals] else [finals]
    ensures PartitionOf(parts, n) && |Union(parts)| == n
  {
    UnionSingle(finals);
    if nonFinals != {} {
      UnionAppend([finals], [nonFinals]);
      UnionSingle(nonFinals);
      assert [finals] + [nonFinals] == parts;
    }
  }

  lemma InitialNoMix(states: seq<DState>, finals: set<nat>, nonFinals: set<nat>, parts: seq<set<nat>>)
    requires forall x | x in finals :: x < |states| && states[x].isEnd
    requires forall x | x in nonFinals :: x < |states| && !states[x].isEnd
    requires parts == [finals, nonFinals] || parts == [finals]
    ensures NoMix(states, parts)
  {
    forall i, x, y | 0 <= i < |parts| && x in parts[i] && y in parts[i] && x < |states| && y < |states|
      ensures states[x].isEnd == states[y].isEnd
    {
      if i == 0 {
        assert x in finals && y in finals;
      } else {
        assert x in nonFinals && y in nonFinals;
      }
    }
  }

  /** One pass keeps the partition, never loses a group, and leaves it stable when nothing split. */
  lemma PassKeeps(states: seq<DState>, syms: seq<string>, parts: seq<set<nat>>, stp: map<nat, nat>,
                  parts': seq<set<nat>>, changed: bool, origin: seq<nat>, gsig: seq<seq<int>>, stp': map<nat, nat>)
    requires Closed(states) && PartitionOf(parts, |states|) && IndexOf(parts, stp) && NoMix(states, parts)
    requires Refined(states, syms, parts, stp, parts', changed, origin, gsig) && IndexOf(parts', stp')
    ensures Settling(states, syms, parts', stp', changed)
    ensures CountNonEmpty(parts') >= CountNonEmpty(parts) + (if changed then 1 else 0)
  {
    PassShape(states, syms, parts, stp, parts', changed, origin, gsig);
    if !changed {
      QuietPassStable(states, syms, parts, stp, parts', origin, gsig, stp');
    }
  }

  /** The groups of one pass still partition the states without mixing final and non-final ones,
      and each of them is non-empty. */
  lemma PassShape(states: seq<DState>, syms: seq<string>, parts: seq<set<nat>>, stp: map<nat, nat>,
                  parts': seq<set<nat>>, changed: bool, origin: seq<nat>, gsig: seq<seq<int>>)
    requires PartitionOf(parts, |states|) && NoMix(states, parts)
    requires Refined(states, syms, parts, stp, parts', changed, origin, gsig)
    ensures PartitionOf(parts', |states|) && NoMix(states, parts') && NonEmpty(parts')
    ensures CountNonEmpty(parts) + (if changed then 1 else 0) <= CountNonEmpty(parts') <= |states|
  {
    assert parts[..|parts|] == parts;
    RefineKeepsNoMix(states, parts, parts', origin);
    CountBound(parts');
    CountAllNonEmpty(parts');
  }

  /** A pass that split nothing leaves every group with one signature under the new numbering. */
  lemma QuietPassStable(states: seq<DState>, syms: seq<string>, parts: seq<set<nat>>, stp: map<nat, nat>,
                        parts': seq<set<nat>>, origin: seq<nat>, gsig: seq<seq<int>>, stp': map<nat, nat>)
    requires Closed(states) && PartitionOf(parts, |states|) && IndexOf(parts, stp)
    requires Refined(states, syms, parts, stp, parts', false, origin, gsig) && IndexOf(parts', stp')
    ensures Stable(states, syms, parts', stp')
  {
    assert parts[..|parts|] == parts;
    SameGroups(parts, stp, parts', stp');
    forall j, x, y | 0 <= j < |parts'| && x in parts'[j] && y in parts'[j] && x < |states| && y < |states|
      ensures Signature(states, stp', syms, x) == Signature(states, stp', syms, y)
    {
      assert x in SigClass(states, stp, syms, gsig[j]) && y in SigClass(states, stp, syms, gsig[j]);
      SignatureTransfer(states, syms, stp, stp', x, y);
    }
  }

  /** New groups inside old groups inherit the absence of mixing. */
  lemma RefineKeepsNoMix(states: seq<DState>, parts: seq<set<nat>>, parts': seq<set<nat>>, origin: seq<nat>)
    requires NoMix(states, parts) && |origin| == |parts'|
    requires forall j | 0 <= j < |parts'| :: origin[j] < |parts| && parts'[j] <= parts[origin[j]]
    ensures NoMix(states, parts')
  {
    forall j, x, y | 0 <= j < |parts'| && x in parts'[j] && y in parts'[j] && x < |states| && y < |states|
      ensures states[x].isEnd == states[y].isEnd
    {
      assert x in parts[origin[j]] && y in parts[origin[j]];
    }
  }

  /** When no group split, the old and the new numbering put the same states together. */
  lemma SameGroups(parts: seq<set<nat>>, stp: map<nat, nat>, parts': seq<set<nat>>, stp': map<nat, nat>)
    requires IndexOf(parts, stp) && IndexOf(parts', stp') && Union(parts') == Union(parts)
    requires forall k | 0 <= k < |parts| && parts[k] != {} :: parts[k] in parts'
    ensures forall s, t | s in stp && t in stp && stp[s] == stp[t] :: stp'[s] == stp'[t]
  {
    forall s, t | s in stp && t in stp && stp[s] == stp[t] ensures stp'[s] == stp'[t] {
      var k :| 0 <= k < |parts| && s in parts[k];
      assert stp[s] == k;
      var k' :| 0 <= k' < |parts| && t in parts[k'];
      assert stp[t] == k';
      var j :| 0 <= j < |parts'| && parts'[j] == parts[k];
      assert stp'[s] == j && stp'[t] == j;
    }
  }

  // ----- the quotient automaton -----

  /** `current.transitions[symbol] = group_to_state[state_to_partition[target]]` over the
      representative's transitions. */
  function QuotientEdges(t: map<string, nat>, stp: map<nat, nat>): map<string, nat> {
    map a | a in t && t[a] in stp :: stp[t[a]]
  }

  /** State `g` of the quotient acts like original state `q`: the same final flag, the same
      symbols, and each target is the group of the original target. */
  ghost predicate ActsLike(states: seq<DState>, mstates: seq<DState>, stp: map<nat, nat>, q: nat, g: nat)
    requires q < |states| && g < |mstates|
  {
    mstates[g].isEnd == states[q].isEnd
    && mstates[g].transitions.Keys == states[q].transitions.Keys
    && forall a | a in states[q].transitions ::
         states[q].transitions[a] in stp && mstates[g].transitions[a] == stp[states[q].transitions[a]]
  }

  /** Every original state is represented by the state of its group. */
  ghost predicate QuotientOf(states: seq<DState>, mstates: seq<DState>, stp: map<nat, nat>) {
    forall q | 0 <= q < |states| :: q in stp && stp[q] < |mstates| && ActsLike(states, mstates, stp, q, stp[q])
  }

  /** Two states with the same signature over the whole alphabet have the same symbols and
      targets in the same groups. */
  lemma SameSignatureActsLike(states: seq<DState>, syms: seq<string>, stp: map<nat, nat>,
                              mstates: seq<DState>, rep: nat, q: nat, g: nat)
    requires Closed(states) && rep < |states| && q < |states| && g < |mstates|
    requires stp.Keys == Range(|states|) && Elems(syms) == AlphabetOf(states)
    requires Signature(states, stp, syms, rep) == Signature(states, stp, syms, q)
    requires mstates[g] == DState(MQ(g), states[rep].nfaStates, QuotientEdges(states[rep].transitions, stp), states[rep].isEnd)
    requires states[rep].isEnd == states[q].isEnd
    ensures ActsLike(states, mstates, stp, q, g)
  {
    var tr, tq := states[rep].transitions, states[q].transitions;
    forall a | a in tr || a in tq ensures a in tr && a in tq && stp[tr[a]] == stp[tq[a]] {
      var k :| 0 <= k < |states| && a in states[k].transitions;
      assert a in AlphabetOf(states);
      var j :| 0 <= j < |syms| && syms[j] == a;
      assert Signature(states, stp, syms, rep)[j] == Signature(states, stp, syms, q)[j];
      if a in tr { assert tr[a] < |states|; }
      if a in tq { assert tq[a] < |states|; }
    }
    forall a | a in tr ensures tr[a] in stp {
      assert tr[a] < |states|;
    }
    assert mstates[g].transitions.Keys == tr.Keys;
  }

  /** The first `|mstates|` groups have their state: named `mq<g>`, with transitions into
      existing groups, acting like every original state of the group. */
  ghost predicate QuotientPrefix(states: seq<DState>, parts: seq<set<nat>>, stp: map<nat, nat>, mstates: seq<DState>) {
    |mstates| <= |parts|
    && (forall g | 0 <= g < |mstates| :: mstates[g].name == MQ(g))
    && (forall g, a | 0 <= g < |mstates| && a in mstates[g].transitions :: mstates[g].transitions[a] < |parts|)
    && (forall q | 0 <= q < |states| && q in stp && stp[q] < |mstates| :: ActsLike(states, mstates, stp, q, stp[q]))
  }

  /** One state per group, `mq<i>`, copying a representative's NFA set and final flag, with the
      representative's transitions redirected to groups. */
  method Quotient(states: seq<DState>, syms: seq<string>, parts: seq<set<nat>>, stp: map<nat, nat>)
    returns (mstates: seq<DState>)
    requires Closed(states) && Elems(syms) == AlphabetOf(states)
    requires PartitionOf(parts, |states|) && NonEmpty(parts) && IndexOf(parts, stp)
    requires NoMix(states, parts) && Stable(states, syms, parts, stp)
    ensures |mstates| == |parts| && Closed(mstates) && NamesUnique(mstates)
    ensures QuotientOf(states, mstates, stp)
  {
    mstates := [];
    while |mstates| < |parts|
      invariant QuotientPrefix(states, parts, stp, mstates)
      decreases |parts| - |mstates|
    {
      var i := |mstates|;
      var rep :| rep in parts[i];
      assert rep in Union(parts);
      var s := DState(MQ(i), states[rep].nfaStates, QuotientEdges(states[rep].transitions, stp), states[rep].isEnd);
      QuotientSnoc(states, syms, parts, stp, mstates, rep, s);
      mstates := mstates + [s];
    }
    QuotientDone(states, parts, stp, mstates);
  }

  /** A full prefix is the quotient. */
  lemma QuotientDone(states: seq<DState>, parts: seq<set<nat>>, stp: map<nat, nat>, mstates: seq<DState>)
    requires PartitionOf(parts, |states|) && IndexOf(parts, stp)
    requires QuotientPrefix(states, parts, stp, mstates) && |mstates| == |parts|
    ensures Closed(mstates) && NamesUnique(mstates) && QuotientOf(states, mstates, stp)
  {
    forall q | 0 <= q < |states| ensures q in stp && stp[q] < |mstates| {
      assert q in Union(parts);
    }
  }

  /** The representative's redirected transitions lead to existing groups. */
  lemma QuotientEdgesBound(states: seq<DState>, parts: seq<set<nat>>, stp: map<nat, nat>, rep: nat)
    requires Closed(states) && rep < |states|
    requires PartitionOf(parts, |states|) && IndexOf(parts, stp)
    ensures forall a | a in QuotientEdges(states[rep].transitions, stp) :: QuotientEdges(states[rep].transitions, stp)[a] < |parts|
  {
    var e := QuotientEdges(states[rep].transitions, stp);
    forall a | a in e ensures e[a] < |parts| {
      var t := states[rep].transitions[a];
      assert t in Union(parts);
      var k :| 0 <= k < |parts| && t in parts[k];
    }
  }

  /** Appending the state of the next group keeps the prefix property. */
  lemma QuotientSnoc(states: seq<DState>, syms: seq<string>, parts: seq<set<nat>>, stp: map<nat, nat>,
                     mstates: seq<DState>, rep: nat, s: DState)
    requires Closed(states) && Elems(syms) == AlphabetOf(states)
    requires PartitionOf(parts, |states|) && IndexOf(parts, stp)
    requires NoMix(states, parts) && Stable(states, syms, parts, stp)
    requires QuotientPrefix(states, parts, stp, mstates)
    requires |mstates| < |parts| && rep in parts[|mstates|] && rep < |states|
    requires s == DState(MQ(|mstates|), states[rep].nfaStates, QuotientEdges(states[rep].transitions, stp), states[rep].isEnd)
    ensures QuotientPrefix(states, parts, stp, mstates + [s])
  {
    var i := |mstates|;
    var ms := mstates + [s];
    QuotientEdgesBound(states, parts, stp, rep);
    SnocShape(mstates, s, |parts|);
    OldGroupsKept(states, stp, mstates, s);
    forall q | 0 <= q < |states| && q in stp && stp[q] < |ms| ensures ActsLike(states, ms, stp, q, stp[q]) {
      if stp[q] == i {
        NewGroupActs(states, syms, parts, stp, ms, rep, q);
      }
    }
  }

  /** Appending the next group's state keeps the names `mq<g>` and the group bounds. */
  lemma SnocShape(mstates: seq<DState>, s: DState, n: nat)
    requires forall g | 0 <= g < |mstates| :: mstates[g].name == MQ(g)
    requires forall g, a | 0 <= g < |mstates| && a in mstates[g].transitions :: mstates[g].transitions[a] < n
    requires s.name == MQ(|mstates|) && forall a | a in s.transitions :: s.transitions[a] < n
    ensures var ms := mstates + [s];
            (forall g | 0 <= g < |ms| :: ms[g].name == MQ(g))
            && (forall g, a | 0 <= g < |ms| && a in ms[g].transitions :: ms[g].transitions[a] < n)
  {
    var ms := mstates + [s];
    forall g | 0 <= g < |ms| ensures ms[g].name == MQ(g) && forall a | a in ms[g].transitions :: ms[g].transitions[a] < n {
      if g < |mstates| {
        assert ms[g] == mstates[g];
      }
    }
  }

  /** Appending a state leaves the states already built acting as before. */
  lemma OldGroupsKept(states: seq<DState>, stp: map<nat, nat>, mstates: seq<DState>, s: DState)
    requires forall q | 0 <= q < |states| && q in stp && stp[q] < |mstates| :: ActsLike(states, mstates, stp, q, stp[q])
    ensures forall q | 0 <= q < |states| && q in stp && stp[q] < |mstates| :: ActsLike(states, mstates + [s], stp, q, stp[q])
  {
    forall q | 0 <= q < |states| && q in stp && stp[q] < |mstates| ensures ActsLike(states, mstates + [s], stp, q, stp[q]) {
      assert (mstates + [s])[stp[q]] == mstates[stp[q]];
    }
  }

  /** A state of the group the representative is in is represented by the new state. */
  lemma NewGroupActs(states: seq<DState>, syms: seq<string>, parts: seq<set<nat>>, stp: map<nat, nat>,
                     ms: seq<DState>, rep: nat, q: nat)
    requires Closed(states) && Elems(syms) == AlphabetOf(states)
    requires PartitionOf(parts, |states|) && IndexOf(parts, stp)
    requires NoMix(states, parts) && Stable(states, syms, parts, stp)
    requires 0 < |ms| <= |parts| && rep in parts[|ms| - 1] && rep < |states|
    requires ms[|ms| - 1] == DState(MQ(|ms| - 1), states[rep].nfaStates, QuotientEdges(states[rep].transitions, stp), states[rep].isEnd)
    requires q < |states| && q in stp && stp[q] == |ms| - 1
    ensures ActsLike(states, ms, stp, q, stp[q])
  {
    var i := |ms| - 1;
    assert q in Union(parts);
    var k :| 0 <= k < |parts| && q in parts[k];
    assert k == i;
    assert rep in Union(parts);
    SameSignatureActsLike(states, syms, stp, ms, rep, q, i);
  }

  /** The quotient runs in step with the original, one group ahead. */
  lemma {:induction false} QuotientRun(states: seq<DState>, mstates: seq<DState>, stp: map<nat, nat>, q: nat, w: string)
    requires Closed(states) && Closed(mstates) && QuotientOf(states, mstates, stp) && q < |states|
    ensures var r := Run(states, q, w);
            Run(mstates, stp[q], w) == if r.Some? then Some(stp[r.value]) else None
    decreases |w|
  {
    if w != [] {
      assert ActsLike(states, mstates, stp, q, stp[q]);
      var a := [w[0]];
      if a in states[q].transitions {
        QuotientRun(states, mstates, stp, states[q].transitions[a], w[1..]);
      }
    }
  }

  /** The quotient accepts exactly what the original accepts. */
  lemma QuotientAccepts(states: seq<DState>, mstates: seq<DState>, stp: map<nat, nat>, q: nat, w: string)
    requires Closed(states) && Closed(mstates) && QuotientOf(states, mstates, stp) && q < |states|
    ensures Accepts(mstates, stp[q], w) <==> Accepts(states, q, w)
  {
    QuotientRun(states, mstates, stp, q, w);
    var r := Run(states, q, w);
    if r.Some? {
      assert ActsLike(states, mstates, stp, r.value, stp[r.value]);
    }
  }

  /** `minimize_dfa(dfa)`: no more states than the input, the start state is the group of the
      input's start, and the same language. */
  method MinimizeDfa(d: Dfa) returns (m: Dfa, ghost parts: seq<set<nat>>)
    requires d.Valid()
    ensures fresh(m) && m.Valid() && |m.states| <= |d.states|
    ensures PartitionOf(parts, |d.states|) && |m.states| == |parts| && d.start in parts[m.start]
    ensures forall w :: Accepts(m.states, m.start, w) <==> Accepts(d.states, d.start, w)
  {
    var syms, blocks, stp := Refinement(d.states);
    parts := blocks;
    var mstates := Quotient(d.states, syms, blocks, stp);
    var start := stp[d.start];
    m := new Dfa(start, mstates);
    forall w ensures Accepts(m.states, m.start, w) <==> Accepts(d.states, d.start, w) {
      QuotientAccepts(d.states, mstates, stp, d.start, w);
    }
  }
}
