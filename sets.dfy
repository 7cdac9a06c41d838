/** Finite-set and sequence helpers shared by the automaton modules. */
module Sets {
  /** The ids `0 .. n-1`. */
  function Range(n: nat): (r: set<nat>)
    ensures forall i: nat :: i in r <==> i < n
    ensures |r| == n
  {
    if n == 0 then {} else Range(n - 1) + {n - 1}
  }

  /** Every subset of `Range(n)`: a finite bound for sets of ids. */
  function PowerSet(n: nat): set<set<nat>> {
    set s: set<nat> | s <= Range(n)
  }

  /** The elements of a sequence. */
  function Elems<T>(s: seq<T>): set<T> {
    set x | x in s
  }

  lemma ElemsAppend<T>(s: seq<T>, t: T)
    ensures Elems(s + [t]) == Elems(s) + {t}
  {
    assert forall x | x in s + [t] :: x in s || x == t;
  }

  predicate NoDup<T(==)>(s: seq<T>) {
    forall i, j | 0 <= i < j < |s| :: s[i] != s[j]
  }

  /** Appending a new element keeps a sequence free of duplicates. */
  lemma NoDupAppend<T>(s: seq<T>, t: T)
    requires NoDup(s) && t !in Elems(s)
    ensures NoDup(s + [t]) && Elems(s + [t]) == Elems(s) + {t}
  {
    ElemsAppend(s, t);
    forall i, j | 0 <= i < j < |s + [t]| ensures (s + [t])[i] != (s + [t])[j] {
      assert (s + [t])[i] == s[i];
      if j == |s| {
        assert s[i] in Elems(s);
      }
    }
  }

  /** Adding a new element of `a` to `r` shrinks `a - r`. */
  lemma DiffShrinks<T>(a: set<T>, r: set<T>, t: T)
    requires t in a && t !in r
    ensures |a - (r + {t})| < |a - r|
  {
    assert a - (r + {t}) == (a - r) - {t};
  }

  /** A subset is no larger than its superset. */
  lemma SubsetCard<T>(a: set<T>, b: set<T>)
    requires a <= b
    ensures |a| <= |b|
  {
    assert b == a + (b - a);
  }

  /** A sequence without duplicates has as many elements as its set. */
  lemma {:induction false} NoDupCard<T>(s: seq<T>)
    requires NoDup(s)
    ensures |Elems(s)| == |s|
  {
    if s != [] {
      var t := s[..|s| - 1];
      assert NoDup(t);
      NoDupCard(t);
      assert Elems(s) == Elems(t) + {s[|s| - 1]};
      assert s[|s| - 1] !in Elems(t) by {
        forall i | 0 <= i < |t| ensures t[i] != s[|s| - 1] {
          assert t[i] == s[i];
        }
      }
    }
  }

  /** The elements of a finite set, listed once each in some order (`list(s)`). */
  method SetToSeq<T>(s: set<T>) returns (xs: seq<T>)
    ensures Elems(xs) == s && NoDup(xs)
  {
    xs := [];
    var rest := s;
    while rest != {}
      invariant Elems(xs) + rest == s && Elems(xs) !! rest && NoDup(xs)
      decreases |rest|
    {
      var x :| x in rest;
      xs := xs + [x];
      rest := rest - {x};
    }
  }

  /** Bookkeeping of a loop over a set: one element moves from the rest to the processed part. */
  lemma TakeOne<T>(all: set<T>, rest: set<T>, keys: set<T>, a: T)
    requires rest <= all && keys == all - rest
    ensures a in rest ==> rest - {a} <= all && keys + {a} == all - (rest - {a})
    ensures rest == {} ==> keys == all
  {
  }

  lemma KeysUpdate<K, V>(m: map<K, V>, k: K, v: V)
    ensures m[k := v].Keys == m.Keys + {k}
    ensures k in m ==> m[k := v].Keys == m.Keys
  {
  }
}
