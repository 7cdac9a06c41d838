/** The recursive-descent pattern parser (Lab2/RegexParser.py).

    The parser pulls tokens lazily from the lexer's generator, so it sees a lexer error only
    when it asks for the token after the last one yielded. The token source is therefore the
    lexer's `LexOutput`, and the parser's cursor is the index of its current token.
    The functions `PExpr` … `PSuffix` define what each parsing method returns and where it
    leaves the cursor; the class `RegexParser` holds the loops of the source and is proved to
    agree with them. */
module RegexParser {
  import opened Wrappers
  import opened RegexToken
  import opened RegexLexer
  import opened RegexNode

  /** A parsing method's outcome: the node and the index of the new current token, or an error. */
  datatype PRes = POk(node: RegexNode, next: nat) | PErr(error: Error)

  /** `next(tokens)` after `i` tokens were taken: the `i`-th token, or the generator's error,
      or `StopIteration` past the end of a completed run. */
  function Pull(src: LexOutput, i: nat): (r: Result<nat>)
    ensures r.Ok? <==> i < |src.tokens|
    ensures r.Ok? ==> r.value == i
    ensures r.Err? && src.error.Some? ==> r.error == src.error.value
  {
    if i < |src.tokens| then Ok(i)
    else if src.error.Some? then Err(src.error.value)
    else Err(Error(StopIteration, ""))
  }

  /** Token kinds that can start an atom. */
  predicate StartsAtom(ty: TokenType) {
    ty in {TokenType.CHAR, LPAREN, NAMED_GROUP_START, TokenType.NAMED_REF}
  }

  /** Token kinds of the suffix operators. */
  predicate IsSuffix(ty: TokenType) {
    ty == TokenType.OPTIONAL || ty == TokenType.REPEAT || ty == TokenType.KLEENE
  }

  /** The name a group token carries (`tok.value`). */
  function NameOf(v: Value): Option<string> {
    if v.Str? then Some(v.s) else None
  }

  /** `expect(type_)` with the current token at `i`. */
  function ExpectAt(src: LexOutput, i: nat, ty: TokenType): (r: Result<nat>)
    requires i < |src.tokens|
    ensures r.Ok? ==> src.tokens[i].ty == ty && r.value == i + 1 < |src.tokens|
    ensures src.tokens[i].ty != ty ==> r.Err? && r.error.kind == SyntaxError
  {
    if src.tokens[i].ty != ty then
      Err(Error(SyntaxError, "Expected TokenType." + TypeName(ty) + ", got " + RegexToken.Repr(src.tokens[i])))
    else Pull(src, i + 1)
  }

  /** All tokens of the source are as the lexer makes them. */
  predicate TokensWellFormed(src: LexOutput) {
    forall i | 0 <= i < |src.tokens| :: WellFormedToken(src.tokens[i])
  }

  /** `parse_suffix(node)`: applies `?`, `{n}` and `…` left to right. */
  function PSuffix(src: LexOutput, node: RegexNode, i: nat): (r: PRes)
    requires i < |src.tokens|
    ensures r.POk? ==> i <= r.next < |src.tokens|
    ensures r.POk? ==> !IsSuffix(src.tokens[r.next].ty)
    ensures r.POk? && TokensWellFormed(src) && WellFormed(node) ==> WellFormed(r.node)
    decreases |src.tokens| - i, 0
  {
    var tok := src.tokens[i];
    if IsSuffix(tok.ty) then
      match Pull(src, i + 1)
      case Err(e) => PErr(e)
      case Ok(j) =>
        var wrapped :=
          if tok.ty == TokenType.OPTIONAL then NewNode(RegexOp.OPTIONAL, children := Some([node]))
          else if tok.ty == TokenType.REPEAT then NewNode(RegexOp.REPEAT, value := tok.value, children := Some([node]))
          else NewNode(RegexOp.KLEENE, children := Some([node]));
        PSuffix(src, wrapped, j)
    else POk(node, i)
  }

  /** `parse_atom()` */
  function PAtom(src: LexOutput, i: nat): (r: PRes)
    requires i < |src.tokens|
    ensures r.POk? ==> i < r.next < |src.tokens|
    ensures !StartsAtom(src.tokens[i].ty) ==> r.PErr? && r.error.kind == SyntaxError
    ensures r.POk? && TokensWellFormed(src) ==> WellFormed(r.node)
    decreases |src.tokens| - i, 1
  {
    var tok := src.tokens[i];
    if tok.ty == TokenType.CHAR then
      match Pull(src, i + 1)
      case Err(e) => PErr(e)
      case Ok(j) => POk(NewNode(RegexOp.CHAR, value := tok.value), j)
    else if tok.ty == LPAREN then
      match Pull(src, i + 1)
      case Err(e) => PErr(e)
      case Ok(j) =>
        match PExpr(src, j)
        case PErr(e) => PErr(e)
        case POk(inner, k) =>
          match ExpectAt(src, k, RPAREN)
          case Err(e) => PErr(e)
          case Ok(m) => POk(inner, m)
    else if tok.ty == NAMED_GROUP_START then
      match Pull(src, i + 1)
      case Err(e) => PErr(e)
      case Ok(j) =>
        match PExpr(src, j)
        case PErr(e) => PErr(e)
        case POk(inner, k) =>
          match ExpectAt(src, k, RPAREN)
          case Err(e) => PErr(e)
          case Ok(m) =>
            PSuffix(src, NewNode(RegexOp.NAMED_GROUP, name := NameOf(tok.value), children := Some([inner])), m)
    else if tok.ty == TokenType.NAMED_REF then
      match Pull(src, i + 1)
      case Err(e) => PErr(e)
      case Ok(j) => POk(NewNode(RegexOp.NAMED_REF, name := NameOf(tok.value)), j)
    else PErr(Error(SyntaxError, "Unexpected token: " + RegexToken.Repr(tok)))
  }

  /** The loop of `parse_concat()` with the atoms collected so far. */
  function PConcatLoop(src: LexOutput, nodes: seq<RegexNode>, i: nat): (r: PRes)
    requires i < |src.tokens|
    ensures r.POk? ==> i <= r.next < |src.tokens| && !StartsAtom(src.tokens[r.next].ty)
    ensures r.POk? && nodes == [] ==> i < r.next
    ensures nodes == [] && !StartsAtom(src.tokens[i].ty) ==> r.PErr? && r.error.kind == SyntaxError
    ensures r.POk? && TokensWellFormed(src) && (forall n | n in nodes :: WellFormed(n)) ==> WellFormed(r.node)
    decreases |src.tokens| - i, 2
  {
    if StartsAtom(src.tokens[i].ty) then
      match PAtom(src, i)
      case PErr(e) => PErr(e)
      case POk(atom, j) =>
        match PSuffix(src, atom, j)
        case PErr(e) => PErr(e)
        case POk(s, k) => PConcatLoop(src, nodes + [s], k)
    else if nodes == [] then PErr(Error(SyntaxError, "Expected expression"))
    else if |nodes| == 1 then POk(nodes[0], i)
    else POk(NewNode(RegexOp.CONCAT, children := Some(nodes)), i)
  }

  /** `parse_concat()` */
  function PConcat(src: LexOutput, i: nat): (r: PRes)
    requires i < |src.tokens|
    ensures r.POk? ==> i < r.next < |src.tokens|
    ensures !StartsAtom(src.tokens[i].ty) ==> r.PErr? && r.error.kind == SyntaxError
    ensures r.POk? && TokensWellFormed(src) ==> WellFormed(r.node)
    decreases |src.tokens| - i, 3
  {
    PConcatLoop(src, [], i)
  }

  /** The loop of `parse_expression()` with the alternatives collected so far. */
  function PExprLoop(src: LexOutput, terms: seq<RegexNode>, i: nat): (r: PRes)
    requires i < |src.tokens| && |terms| >= 1
    ensures r.POk? ==> i <= r.next < |src.tokens| && src.tokens[r.next].ty != OR
    ensures r.POk? && TokensWellFormed(src) && (forall n | n in terms :: WellFormed(n)) ==> WellFormed(r.node)
    decreases |src.tokens| - i, 4
  {
    if src.tokens[i].ty == OR then
      match Pull(src, i + 1)
      case Err(e) => PErr(e)
      case Ok(j) =>
        match PConcat(src, j)
        case PErr(e) => PErr(e)
        case POk(t, k) => PExprLoop(src, terms + [t], k)
    else if |terms| == 1 then POk(terms[0], i)
    else POk(NewNode(RegexOp.ALT, children := Some(terms)), i)
  }

  /** `parse_expression()` */
  function PExpr(src: LexOutput, i: nat): (r: PRes)
    requires i < |src.tokens|
    ensures r.POk? ==> i < r.next < |src.tokens| && src.tokens[r.next].ty != OR
    ensures r.POk? && TokensWellFormed(src) ==> WellFormed(r.node)
    decreases |src.tokens| - i, 4
  {
    match PConcat(src, i)
    case PErr(e) => PErr(e)
    case POk(t, j) => PExprLoop(src, [t], j)
  }

  /** `parse()` with the current token at `i`. */
  function ParseFrom(src: LexOutput, i: nat): (r: Result<RegexNode>)
    requires i < |src.tokens|
    ensures r.Ok? && TokensWellFormed(src) ==> WellFormed(r.value)
  {
    match PExpr(src, i)
    case PErr(e) => Err(e)
    case POk(n, j) =>
      if src.tokens[j].ty != EOF then Err(Error(SyntaxError, "Unexpected token after expression"))
      else Ok(n)
  }

  /** `RegexParser(tokens).parse()`: the constructor takes the first token, then `parse()` runs. */
  function Parse(src: LexOutput): (r: Result<RegexNode>)
    ensures r.Ok? && TokensWellFormed(src) ==> WellFormed(r.value)
  {
    match Pull(src, 0)
    case Err(e) => Err(e)
    case Ok(i) => ParseFrom(src, i)
  }

  /** `RegexParser(RegexLexer(pattern).lex()).parse()` */
  function ParsePattern(pattern: string): Result<RegexNode> {
    Parse(Lex(pattern))
  }

  /** A node returned for a whole pattern has the shapes the NFA construction expects. */
  lemma ParsePatternWellFormed(pattern: string)
    ensures ParsePattern(pattern).Ok? ==> WellFormed(ParsePattern(pattern).value)
  {
    LexTokensWellFormed(pattern, 0);
  }

  /** A pattern parses only if the lexer read all of it: the parse ends on `EOF`, and the
      lexer yields `EOF` only after a run without error. */
  lemma ParseOkMeansLexOk(pattern: string)
    ensures ParsePattern(pattern).Ok? ==> Lex(pattern).error.None?
  {
    var src := Lex(pattern);
    if ParsePattern(pattern).Ok? {
      LexEofOnlyAtEnd(pattern, 0);
      var j := PExpr(src, 0).next;
      assert src.tokens[j].ty == EOF;
    }
  }

  /** An empty pattern, and any pattern starting with `|` or `)`, has no first atom. */
  lemma NoLeadingAtomRejected(src: LexOutput)
    requires |src.tokens| > 0 && !StartsAtom(src.tokens[0].ty)
    ensures Parse(src).Err? && Parse(src).error.kind == SyntaxError
  {
    assert PExpr(src, 0) == PConcat(src, 0);
  }

  /** `|` followed by something that cannot start an atom (a trailing or doubled `|`) fails. */
  lemma BarWithoutOperandRejected(src: LexOutput, i: nat)
    requires i + 1 < |src.tokens| && src.tokens[i].ty == OR && !StartsAtom(src.tokens[i + 1].ty)
    requires PConcat(src, 0).POk? && PConcat(src, 0).next == i
    ensures Parse(src).Err? && Parse(src).error.kind == SyntaxError
  {
    assert PConcat(src, i + 1).PErr?;
    assert PExprLoop(src, [PConcat(src, 0).node], i).PErr?;
  }

  /** `()` fails: an empty group holds no expression. */
  lemma EmptyGroupRejected(src: LexOutput, i: nat)
    requires i + 1 < |src.tokens| && src.tokens[i].ty == LPAREN && src.tokens[i + 1].ty == RPAREN
    ensures PAtom(src, i).PErr? && PAtom(src, i).error.kind == SyntaxError
  {
  }

  /** A group whose expression is not followed by `)` fails. */
  lemma UnclosedGroupRejected(src: LexOutput, i: nat)
    requires i + 1 < |src.tokens| && src.tokens[i].ty in {LPAREN, NAMED_GROUP_START}
    requires PExpr(src, i + 1).POk? && src.tokens[PExpr(src, i + 1).next].ty != RPAREN
    ensures PAtom(src, i).PErr? && PAtom(src, i).error.kind == SyntaxError
  {
  }

  function CharNode(c: char): RegexNode {
    RegexNode(RegexOp.CHAR, Str([c]), [], None)
  }

  function CharNodes(s: string): (r: seq<RegexNode>)
    ensures |r| == |s| && forall i | 0 <= i < |s| :: r[i] == CharNode(s[i])
  {
    if s == [] then [] else [CharNode(s[0])] + CharNodes(s[1..])
  }

  /** One `CHAR` token not followed by a suffix adds its character node to the concatenation. */
  lemma ConcatCharStep(src: LexOutput, nodes: seq<RegexNode>, i: nat, c: char)
    requires i + 1 < |src.tokens| && src.tokens[i] == Token(TokenType.CHAR, Str([c]))
    requires !IsSuffix(src.tokens[i + 1].ty)
    ensures PConcatLoop(src, nodes, i) == PConcatLoop(src, nodes + [CharNode(c)], i + 1)
  {
    assert PAtom(src, i) == POk(CharNode(c), i + 1);
    assert PSuffix(src, CharNode(c), i + 1) == POk(CharNode(c), i + 1);
  }

  /** The `CHAR` tokens of the characters of `s`, in order. */
  predicate CharTokensAt(src: LexOutput, i: nat, s: string) {
    i + |s| < |src.tokens| && forall k | 0 <= k < |s| :: src.tokens[i + k] == Token(TokenType.CHAR, Str([s[k]]))
  }

  lemma CharTokensAtTail(src: LexOutput, i: nat, s: string)
    requires s != [] && CharTokensAt(src, i, s)
    ensures src.tokens[i] == Token(TokenType.CHAR, Str([s[0]])) && CharTokensAt(src, i + 1, s[1..])
    ensures |s| > 1 ==> src.tokens[i + 1].ty == TokenType.CHAR
    ensures !IsSuffix(src.tokens[i + |s|].ty) ==> !IsSuffix(src.tokens[i + 1].ty)
  {
    assert src.tokens[i + 0] == Token(TokenType.CHAR, Str([s[0]]));
    forall k | 0 <= k < |s[1..]| ensures src.tokens[i + 1 + k] == Token(TokenType.CHAR, Str([s[1..][k]])) {
      assert src.tokens[i + (k + 1)] == Token(TokenType.CHAR, Str([s[k + 1]]));
    }
    if |s| > 1 {
      assert src.tokens[i + 1] == Token(TokenType.CHAR, Str([s[1]]));
    }
  }

  /** A run of `CHAR` tokens is gathered, in order, into the concatenation loop. */
  lemma {:induction false} ConcatOfChars(src: LexOutput, nodes: seq<RegexNode>, i: nat, s: string, all: seq<RegexNode>)
    requires CharTokensAt(src, i, s) && all == nodes + CharNodes(s)
    requires !IsSuffix(src.tokens[i + |s|].ty)
    ensures PConcatLoop(src, nodes, i) == PConcatLoop(src, all, i + |s|)
    decreases |s|
  {
    if s == [] {
      assert all == nodes;
    } else {
      var rest, nodes' := s[1..], nodes + [CharNode(s[0])];
      CharTokensAtTail(src, i, s);
      CharNodesCons(nodes, s);
      ConcatOfChars(src, nodes', i + 1, rest, all);
      ConcatCharStep(src, nodes, i, s[0]);
    }
  }

  lemma CharNodesCons(nodes: seq<RegexNode>, s: string)
    requires s != []
    ensures nodes + [CharNode(s[0])] + CharNodes(s[1..]) == nodes + CharNodes(s)
  {
    var rest := CharNodes(s[1..]);
    assert CharNodes(s) == [CharNode(s[0])] + rest;
    assert nodes + [CharNode(s[0])] + rest == nodes + ([CharNode(s[0])] + rest);
  }

  /** The node for a run of one or more characters: the character itself, or their `CONCAT`. */
  function CharsNode(s: string): RegexNode
    requires |s| >= 1
  {
    if |s| == 1 then CharNode(s[0]) else RegexNode(RegexOp.CONCAT, NoValue, CharNodes(s), None)
  }

  /** A token source of `CHAR` tokens then `EOF` parses to their characters in order. */
  lemma CharTokensParse(src: LexOutput, s: string)
    requires |s| >= 1 && CharTokensAt(src, 0, s) && src.tokens[|s|].ty == EOF
    ensures Parse(src) == Ok(CharsNode(s))
  {
    CharTokensConcat(src, s);
    var t := CharsNode(s);
    assert PExprLoop(src, [t], |s|) == POk(t, |s|);
    assert PExpr(src, 0) == POk(t, |s|);
  }

  /** The concatenation over such a token source stops at `EOF` with the characters in order. */
  lemma CharTokensConcat(src: LexOutput, s: string)
    requires |s| >= 1 && CharTokensAt(src, 0, s) && src.tokens[|s|].ty == EOF
    ensures PConcat(src, 0) == POk(CharsNode(s), |s|)
  {
    assert [] + CharNodes(s) == CharNodes(s);
    ConcatOfChars(src, [], 0, s, CharNodes(s));
    assert PConcatLoop(src, CharNodes(s), |s|) == POk(CharsNode(s), |s|);
  }

  /** A pattern of plain characters parses to its one character, or to the `CONCAT` of its
      characters in order. */
  lemma PlainPatternParse(s: string)
    requires |s| >= 1 && forall i | 0 <= i < |s| :: Plain(s[i])
    ensures |s| == 1 ==> ParsePattern(s) == Ok(CharNode(s[0]))
    ensures |s| >= 2 ==> ParsePattern(s) == Ok(RegexNode(RegexOp.CONCAT, NoValue, CharNodes(s), None))
  {
    LexPlainText(s, 0);
    var src := Lex(s);
    LexEofOnlyAtEnd(s, 0);
    assert src.tokens[|s|].ty == EOF;
    assert CharTokensAt(src, 0, s);
    CharTokensParse(src, s);
  }

  /** `a?…` lexes to `CHAR a`, `OPTIONAL`, `KLEENE`, `EOF`. */
  lemma SuffixesChainTokens()
    ensures Lex("a?" + [KleeneGlyph]) == LexOutput([Token(TokenType.CHAR, Str("a")), Token(TokenType.OPTIONAL, NoValue),
                                                    Token(TokenType.KLEENE, NoValue), Token(EOF, NoValue)], None)
  {
    var s := "a?" + [KleeneGlyph];
    assert StepAt(s, 0) == Emit(Token(TokenType.CHAR, Str("a")), 1);
    assert StepAt(s, 1) == Emit(Token(TokenType.OPTIONAL, NoValue), 2);
    assert StepAt(s, 2) == Emit(Token(TokenType.KLEENE, NoValue), 3);
    assert LexFrom(s, 3) == LexOutput([Token(EOF, NoValue)], None);
    assert LexFrom(s, 2).tokens == [Token(TokenType.KLEENE, NoValue), Token(EOF, NoValue)];
    assert LexFrom(s, 1).tokens == [Token(TokenType.OPTIONAL, NoValue), Token(TokenType.KLEENE, NoValue), Token(EOF, NoValue)];
  }

  /** Suffixes chain to the left: `a?…` is `KLEENE(OPTIONAL(a))`. */
  lemma SuffixesChain()
    ensures ParsePattern("a?" + [KleeneGlyph]) ==
            Ok(NewNode(RegexOp.KLEENE, children := Some([NewNode(RegexOp.OPTIONAL, children := Some([CharNode('a')]))])))
  {
    SuffixesChainTokens();
    SuffixesChainParse(Lex("a?" + [KleeneGlyph]));
  }

  lemma SuffixesChainParse(src: LexOutput)
    requires src == LexOutput([Token(TokenType.CHAR, Str("a")), Token(TokenType.OPTIONAL, NoValue),
                               Token(TokenType.KLEENE, NoValue), Token(EOF, NoValue)], None)
    ensures Parse(src) ==
            Ok(NewNode(RegexOp.KLEENE, children := Some([NewNode(RegexOp.OPTIONAL, children := Some([CharNode('a')]))])))
  {
    var a := CharNode('a');
    var o := NewNode(RegexOp.OPTIONAL, children := Some([a]));
    var k := NewNode(RegexOp.KLEENE, children := Some([o]));
    assert PAtom(src, 0) == POk(a, 1);
    assert PSuffix(src, k, 3) == POk(k, 3);
    assert PSuffix(src, o, 2) == POk(k, 3);
    assert PSuffix(src, a, 1) == POk(k, 3);
    assert PConcatLoop(src, [k], 3) == POk(k, 3);
    assert PConcatLoop(src, [], 0) == POk(k, 3);
    assert PExprLoop(src, [k], 3) == POk(k, 3);
    assert PExpr(src, 0) == POk(k, 3);
  }

  /** `<g>?` lexes to `NAMED_REF g`, `OPTIONAL`, `EOF`. */
  lemma ReferenceSuffixTokens()
    ensures Lex("<g>?") == LexOutput([Token(TokenType.NAMED_REF, Str("g")), Token(TokenType.OPTIONAL, NoValue),
                                      Token(EOF, NoValue)], None)
  {
    var s := "<g>?";
    assert Find(s, '>', 0) == 2;
    assert s[1..2] == "g";
    assert StepAt(s, 0) == Emit(Token(TokenType.NAMED_REF, Str("g")), 3);
    assert StepAt(s, 3) == Emit(Token(TokenType.OPTIONAL, NoValue), 4);
    assert LexFrom(s, 4) == LexOutput([Token(EOF, NoValue)], None);
    assert LexFrom(s, 3).tokens == [Token(TokenType.OPTIONAL, NoValue), Token(EOF, NoValue)];
  }

  /** A back-reference also takes suffixes: `<g>?` is `OPTIONAL(NAMED_REF g)`. */
  lemma ReferenceTakesSuffix()
    ensures ParsePattern("<g>?") ==
            Ok(NewNode(RegexOp.OPTIONAL, children := Some([NewNode(RegexOp.NAMED_REF, name := Some("g"))])))
  {
    ReferenceSuffixTokens();
    ReferenceSuffixParse(Lex("<g>?"));
  }

  lemma ReferenceSuffixParse(src: LexOutput)
    requires src == LexOutput([Token(TokenType.NAMED_REF, Str("g")), Token(TokenType.OPTIONAL, NoValue),
                               Token(EOF, NoValue)], None)
    ensures Parse(src) == Ok(NewNode(RegexOp.OPTIONAL, children := Some([NewNode(RegexOp.NAMED_REF, name := Some("g"))])))
  {
    var r := NewNode(RegexOp.NAMED_REF, name := Some("g"));
    var o := NewNode(RegexOp.OPTIONAL, children := Some([r]));
    assert PAtom(src, 0) == POk(r, 1);
    assert PSuffix(src, o, 2) == POk(o, 2);
    assert PSuffix(src, r, 1) == POk(o, 2);
    assert PConcatLoop(src, [o], 2) == POk(o, 2);
    assert PConcatLoop(src, [], 0) == POk(o, 2);
    assert PExprLoop(src, [o], 2) == POk(o, 2);
  }

  /** Whether a method's result and cursor agree with a parsing function's outcome. */
  predicate Agrees(r: Result<RegexNode>, p: PRes, pos: nat) {
    match p
    case POk(n, j) => r == Ok(n) && pos == j
    case PErr(e) => r == Err(e)
  }

  /** The parser object: the token source and the index of the current token. */
  class RegexParser {
    const src: LexOutput
    var pos: nat

    ghost predicate Valid()
      reads this
    {
      pos < |src.tokens|
    }

    constructor (tokens: LexOutput, first: nat)
      requires Pull(tokens, 0) == Ok(first)
      ensures Valid() && src == tokens && pos == 0
    {
      src := tokens;
      pos := first;
    }

    /** `RegexParser(tokens)`: takes the first token, which fails when the generator fails at once. */
    static method Create(tokens: LexOutput) returns (r: Result<RegexParser>)
      ensures r.Ok? <==> Pull(tokens, 0).Ok?
      ensures r.Err? ==> r.error == Pull(tokens, 0).error
      ensures r.Ok? ==> fresh(r.value) && r.value.Valid() && r.value.src == tokens && r.value.pos == 0
    {
      match Pull(tokens, 0)
      case Err(e) => r := Err(e);
      case Ok(first) =>
        var p := new RegexParser(tokens, first);
        r := Ok(p);
    }

    function Current(): (t: Token)
      requires Valid()
      reads this
      ensures t == src.tokens[pos]
    {
      src.tokens[pos]
    }

    /** `advance()`: takes the next token, or reports the generator's error. */
    method Advance() returns (e: Option<Error>)
      requires Valid()
      modifies this
      ensures Valid()
      ensures Pull(src, old(pos) + 1).Ok? ==> e.None? && pos == old(pos) + 1
      ensures Pull(src, old(pos) + 1).Err? ==> e == Some(Pull(src, old(pos) + 1).error)
    {
      match Pull(src, pos + 1)
      case Err(err) => e := Some(err);
      case Ok(j) => pos := j; e := None;
    }

    /** `expect(type_)` */
    method Expect(ty: TokenType) returns (e: Option<Error>)
      requires Valid()
      modifies this
      ensures Valid()
      ensures ExpectAt(src, old(pos), ty).Ok? ==> e.None? && pos == ExpectAt(src, old(pos), ty).value
      ensures ExpectAt(src, old(pos), ty).Err? ==> e == Some(ExpectAt(src, old(pos), ty).error)
    {
      if Current().ty != ty {
        e := Some(Error(SyntaxError, "Expected TokenType." + TypeName(ty) + ", got " + RegexToken.Repr(Current())));
        return;
      }
      e := Advance();
    }

    /** `match(token_type)`: advances past a token of that kind. */
    method Match(ty: TokenType) returns (r: Result<bool>)
      requires Valid()
      modifies this
      ensures Valid()
      ensures src.tokens[old(pos)].ty != ty ==> r == Ok(false) && pos == old(pos)
      ensures src.tokens[old(pos)].ty == ty && Pull(src, old(pos) + 1).Ok? ==> r == Ok(true) && pos == old(pos) + 1
      ensures src.tokens[old(pos)].ty == ty && Pull(src, old(pos) + 1).Err? ==> r == Err(Pull(src, old(pos) + 1).error)
    {
      if Current().ty == ty {
        var e := Advance();
        if e.Some? { return Err(e.value); }
        return Ok(true);
      }
      return Ok(false);
    }

    /** `parse_suffix(node)` */
    method ParseSuffix(node: RegexNode) returns (r: Result<RegexNode>)
      requires Valid()
      modifies this
      ensures Valid() && Agrees(r, PSuffix(src, node, old(pos)), pos)
      decreases |src.tokens| - pos, 0
    {
      var cur := node;
      while true
        invariant Valid() && PSuffix(src, node, old(pos)) == PSuffix(src, cur, pos)
        decreases |src.tokens| - pos
      {
        var tok := Current();
        if tok.ty == TokenType.OPTIONAL {
          var e := Advance();
          if e.Some? { return Err(e.value); }
          cur := NewNode(RegexOp.OPTIONAL, children := Some([cur]));
        } else if tok.ty == TokenType.REPEAT {
          var e := Advance();
          if e.Some? { return Err(e.value); }
          cur := NewNode(RegexOp.REPEAT, value := tok.value, children := Some([cur]));
        } else if tok.ty == TokenType.KLEENE {
          var e := Advance();
          if e.Some? { return Err(e.value); }
          cur := NewNode(RegexOp.KLEENE, children := Some([cur]));
        } else {
          break;
        }
      }
      return Ok(cur);
    }

    /** `parse_expression()` */
    method ParseExpression() returns (r: Result<RegexNode>)
      requires Valid()
      modifies this
      ensures Valid() && Agrees(r, PExpr(src, old(pos)), pos)
      decreases |src.tokens| - pos, 4
    {
      var first := ParseConcat();
      if first.Err? { return first; }
      var terms := [first.value];
      while true
        invariant Valid() && old(pos) < pos && |terms| >= 1
        invariant PExpr(src, old(pos)) == PExprLoop(src, terms, pos)
        decreases |src.tokens| - pos
      {
        var more := Match(OR);
        if more.Err? { return Err(more.error); }
        if !more.value { break; }
        var t := ParseConcat();
        if t.Err? { return t; }
        terms := terms + [t.value];
      }
      if |terms| == 1 { return Ok(terms[0]); }
      return Ok(NewNode(RegexOp.ALT, children := Some(terms)));
    }

    /** `parse_concat()` */
    method ParseConcat() returns (r: Result<RegexNode>)
      requires Valid()
      modifies this
      ensures Valid() && Agrees(r, PConcat(src, old(pos)), pos)
      decreases |src.tokens| - pos, 3
    {
      var nodes: seq<RegexNode> := [];
      while StartsAtom(Current().ty)
        invariant Valid() && old(pos) <= pos && (nodes != [] ==> old(pos) < pos)
        invariant PConcat(src, old(pos)) == PConcatLoop(src, nodes, pos)
        decreases |src.tokens| - pos
      {
        var atom := ParseAtom();
        if atom.Err? { return atom; }
        var s := ParseSuffix(atom.value);
        if s.Err? { return s; }
        nodes := nodes + [s.value];
      }
      if nodes == [] { return Err(Error(SyntaxError, "Expected expression")); }
      if |nodes| == 1 { return Ok(nodes[0]); }
      return Ok(NewNode(RegexOp.CONCAT, children := Some(nodes)));
    }

    /** `parse_atom()` */
    method ParseAtom() returns (r: Result<RegexNode>)
      requires Valid()
      modifies this
      ensures Valid() && Agrees(r, PAtom(src, old(pos)), pos)
      decreases |src.tokens| - pos, 1
    {
      var tok := Current();
      if tok.ty == TokenType.CHAR {
        var e := Advance();
        if e.Some? { return Err(e.value); }
        return Ok(NewNode(RegexOp.CHAR, value := tok.value));
      } else if tok.ty == LPAREN {
        var e := Advance();
        if e.Some? { return Err(e.value); }
        var inner := ParseExpression();
        if inner.Err? { return inner; }
        var x := Expect(RPAREN);
        if x.Some? { return Err(x.value); }
        return inner;
      } else if tok.ty == NAMED_GROUP_START {
        var name := NameOf(tok.value);
        var e := Advance();
        if e.Some? { return Err(e.value); }
        var inner := ParseExpression();
        if inner.Err? { return inner; }
        var x := Expect(RPAREN);
        if x.Some? { return Err(x.value); }
        r := ParseSuffix(NewNode(RegexOp.NAMED_GROUP, name := name, children := Some([inner.value])));
        return;
      } else if tok.ty == TokenType.NAMED_REF {
        var e := Advance();
        if e.Some? { return Err(e.value); }
        return Ok(NewNode(RegexOp.NAMED_REF, name := NameOf(tok.value)));
      }
      return Err(Error(SyntaxError, "Unexpected token: " + RegexToken.Repr(tok)));
    }

    /** `parse()` */
    method Parse() returns (r: Result<RegexNode>)
      requires Valid()
      modifies this
      ensures Valid() && r == ParseFrom(src, old(pos))
    {
      r := ParseExpression();
      if r.Err? { return; }
      if Current().ty != EOF {
        return Err(Error(SyntaxError, "Unexpected token after expression"));
      }
    }
  }

  /** `RegexParser(tokens).parse()` as one call. */
  method ParseTokens(tokens: LexOutput) returns (r: Result<RegexNode>)
    ensures r == Parse(tokens)
  {
    var p := RegexParser.Create(tokens);
    if p.Err? { return Err(p.error); }
    r := p.value.Parse();
  }
}
