/** The façade of the pattern compiler (Lab2/MyRegex.py): `MatchResult` and `CompiledDFA`. */
module MyRegex {
  import opened Wrappers
  import opened RegexLexer
  import opened RegexNode
  import opened RegexParser
  import opened RegexNfa
  import opened RegexDfa
  import opened SubsetConstruction
  import Minimize
  import DfaTotal
  import DfaIntersect
  import DfaToRegex

  // ----- MatchResult

  /** The value stored under `key` in a list of `(name, value)` pairs, or `None`. */
  function Lookup(pairs: seq<(string, string)>, key: string): (r: Option<string>)
    ensures r.None? <==> forall i | 0 <= i < |pairs| :: pairs[i].0 != key
    ensures r.Some? ==> (key, r.value) in pairs
  {
    if pairs == [] then None
    else if pairs[0].0 == key then Some(pairs[0].1)
    else Lookup(pairs[1..], key)
  }

  /** Names are keys of a dictionary: no name twice. */
  predicate KeysUnique(pairs: seq<(string, string)>) {
    forall i, j | 0 <= i < j < |pairs| :: pairs[i].0 != pairs[j].0
  }

  /** `MatchResult(start, end, full_match, groups)`; the groups dictionary is kept as its list of
      items, in insertion order. */
  datatype MatchResult = MatchResult(start: int, end: int, fullMatch: string, groups: seq<(string, string)>)
  {
    /** `result[key]`: `self.groups.get(key, None)`. */
    function Get(key: string): Option<string> {
      Lookup(groups, key)
    }

    /** `iter(result)`: `iter(self.groups.items())`. */
    function Items(): seq<(string, string)> {
      groups
    }
  }

  /** Indexing and iteration agree: `result[k]` is `v` exactly when `(k, v)` is among the items,
      and `None` exactly when `k` is not. */
  lemma GetMatchesItems(m: MatchResult, k: string, v: string)
    requires KeysUnique(m.groups)
    ensures m.Get(k) == Some(v) <==> (k, v) in m.Items()
    ensures m.Get(k).None? <==> forall p | p in m.Items() :: p.0 != k
  {
  }

  // ----- CompiledDFA

  /** `make_dfa_total` may run on these states: a state already called `TRAP` means the automaton
      is already total. */
  ghost predicate Totalizable(states: seq<DState>) {
    !DfaTotal.NoTrap(states) ==> DfaTotal.TotalOver(states, AlphabetOf(states))
  }

  /** A complemented automaton can be complemented again. */
  lemma ComplementTotalizable(states: seq<DState>)
    requires WellFormedNames(states) && Totalizable(states)
    ensures Totalizable(DfaTotal.FlipFinals(DfaTotal.TotalOf(states)))
  {
    DfaTotal.TotalOfIdempotent(states);
    DfaTotal.FlipKeeps(DfaTotal.TotalOf(states));
  }

  /** What `CompiledDFA(pattern)` raises, if anything: the lexer's or the parser's error, or the
      NFA constructor's, which starts with no recorded groups. */
  ghost function CompileError(pattern: string): Option<Error> {
    match ParsePattern(pattern)
    case Err(e) => Some(e)
    case Ok(ast) =>
      ParsePatternWellFormed(pattern);
      WellFormedBuildable(ast);
      Scan(ast, {}).err
  }

  class CompiledDfa {
    const pattern: string
    const tokens: LexOutput
    const ast: RegexNode
    const nfaStates: seq<NState>
    const nfa: Nfa
    const dfa: Dfa
    /** `_min_dfa`: `None` until `min_dfa` is first asked for. */
    var minDfaCache: Option<Dfa>
    /** The automaton `minDfaCache` was computed from. */
    ghost var cachedFrom: seq<DState>
    ghost var cachedStart: nat

    ghost predicate Valid()
      reads this, dfa, if minDfaCache.Some? then {minDfaCache.value} else {}
    {
      dfa.Valid() && Totalizable(dfa.states)
      && (minDfaCache.Some? ==>
            var m := minDfaCache.value;
            m != dfa && m.Valid() && WellFormedDfa(cachedStart, cachedFrom) && |m.states| <= |cachedFrom|
            && forall w :: Accepts(m.states, m.start, w) <==> Accepts(cachedFrom, cachedStart, w))
    }

    constructor (pattern: string, tokens: LexOutput, ast: RegexNode, nfaStates: seq<NState>, nfa: Nfa, dfa: Dfa)
      requires dfa.Valid() && DfaTotal.NoTrap(dfa.states)
      ensures Valid() && minDfaCache.None?
      ensures this.pattern == pattern && this.tokens == tokens && this.ast == ast
      ensures this.nfaStates == nfaStates && this.nfa == nfa && this.dfa == dfa
    {
      this.pattern := pattern;
      this.tokens := tokens;
      this.ast := ast;
      this.nfaStates := nfaStates;
      this.nfa := nfa;
      this.dfa := dfa;
      minDfaCache := None;
    }

    /** `compile_dfa(pattern)`: lex, parse, build the NFA with a fresh constructor, then the subset
        construction. Fails exactly with the error one of the stages raises. */
    static method Compile(pattern: string) returns (r: Result<CompiledDfa>)
      ensures r.Err? <==> CompileError(pattern).Some?
      ensures r.Err? ==> r.error == CompileError(pattern).value
      ensures r.Ok? ==> var c := r.value;
                fresh(c) && fresh(c.dfa) && c.Valid() && c.minDfaCache.None?
                && c.pattern == pattern && c.tokens == Lex(pattern) && ParsePattern(pattern) == Ok(c.ast)
                && GraphOk(c.nfaStates) && c.nfa.start < |c.nfaStates| && c.dfa.start == 0
                && IsClosureOf(c.nfaStates, {c.nfa.start}, c.dfa.states[0].nfaStates, true)
                && SubsetDfa(c.nfaStates, c.dfa.states)
    {
      var lexer := new Lexer(pattern);
      var tokens := lexer.Lex();
      var parsed := ParseTokens(tokens);
      if parsed.Err? {
        return Err(parsed.error);
      }
      var ast := parsed.value;
      ParsePatternWellFormed(pattern);
      WellFormedBuildable(ast);
      var arena := new Arena();
      var builder := new NfaConstructor();
      assert builder.namedGroups.Keys == {};
      assert ParsePattern(pattern) == Ok(ast);
      var built, _ := builder.Build(arena, ast);
      if built.Err? {
        return Err(built.error);
      }
      var nfa := built.value;
      var dfa := NfaToDfa(arena.states, nfa);
      assert DfaTotal.NoTrap(dfa.states) by {
        forall k | 0 <= k < |dfa.states| ensures dfa.states[k].name != Trap {
          assert Entry(arena.states, dfa.states[k], k);
        }
      }
      var c := new CompiledDfa(pattern, tokens, ast, arena.states, nfa, dfa);
      r := Ok(c);
    }

    /** The `min_dfa` property: minimises `dfa` on first use and caches the result; later uses hand
        back the cached automaton unchanged. */
    method MinDfa() returns (m: Dfa)
      requires Valid()
      modifies this
      ensures Valid() && minDfaCache == Some(m)
      ensures old(minDfaCache).Some? ==> m == old(minDfaCache).value && cachedFrom == old(cachedFrom) && cachedStart == old(cachedStart)
      ensures old(minDfaCache).None? ==> fresh(m) && cachedFrom == dfa.states && cachedStart == dfa.start
      ensures m.Valid() && forall w :: Accepts(m.states, m.start, w) <==> Accepts(cachedFrom, cachedStart, w)
    {
      if minDfaCache.None? {
        var computed, _ := Minimize.MinimizeDfa(dfa);
        minDfaCache := Some(computed);
        cachedFrom := dfa.states;
        cachedStart := dfa.start;
      }
      m := minDfaCache.value;
    }

    /** `match(string)`: `match_dfa` on the unminimised automaton. */
    method Match(s: string) returns (b: bool)
      requires Valid()
      ensures b == Accepts(dfa.states, dfa.start, s)
    {
      b := MatchDfa(dfa, s);
    }

    /** `search(string)`: `search_dfa` on the unminimised automaton. */
    method Search(s: string) returns (b: bool)
      requires Valid()
      ensures b <==> FindsSubstring(dfa.states, dfa.start, s)
    {
      b := SearchDfa(dfa, s);
    }

    /** `to_regex()`: `dfa_to_regex` on `min_dfa`. */
    method ToRegex() returns (s: string, ghost base: seq<seq<string>>)
      requires Valid()
      modifies this
      ensures Valid() && minDfaCache.Some?
      ensures old(minDfaCache).Some? ==> minDfaCache == old(minDfaCache) && cachedFrom == old(cachedFrom)
      ensures old(minDfaCache).None? ==> cachedFrom == dfa.states && cachedStart == dfa.start
      ensures DfaToRegex.BaseOk(minDfaCache.value.states, base)
      ensures s == DfaToRegex.RegexOf(minDfaCache.value.states, minDfaCache.value.start, base)
    {
      var m := MinDfa();
      ghost var syms;
      s, syms, base := DfaToRegex.DfaToRegex(m);
      DfaToRegex.BaseOfOk(m.states, syms, base);
    }

    /** `complement_dfa()`: complements `self.dfa` in place. The cached `min_dfa`, if any, is left
        as it was. */
    method ComplementDfa()
      requires Valid()
      modifies dfa
      ensures Valid() && minDfaCache == old(minDfaCache)
      ensures dfa.start == old(dfa.start) && dfa.states == DfaTotal.FlipFinals(DfaTotal.TotalOf(old(dfa.states)))
      ensures forall w :: Accepts(dfa.states, dfa.start, w) <==>
                            DfaTotal.OverAlphabet(w, AlphabetOf(old(dfa.states))) && !Accepts(old(dfa.states), old(dfa.start), w)
    {
      ComplementTotalizable(dfa.states);
      DfaTotal.ComplementDfa(dfa);
    }

    /** `intersect(other)`: the product of the two unminimised automata. */
    method Intersect(other: CompiledDfa) returns (d: Dfa)
      requires Valid() && other.Valid()
      ensures fresh(d) && d.Valid()
      ensures forall w :: Accepts(d.states, d.start, w) <==>
                            Accepts(dfa.states, dfa.start, w) && Accepts(other.dfa.states, other.dfa.start, w)
    {
      ghost var pairs;
      d, pairs := DfaIntersect.IntersectDfa(dfa, other.dfa);
    }
  }
}
