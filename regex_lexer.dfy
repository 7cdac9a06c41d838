/** The hand-written pattern lexer (Lab2/RegexLexer.py).

    `lex` is a Python generator: it yields tokens one by one and raises `ValueError` at the first
    malformed construct, after the tokens before it have been yielded. The model keeps that
    laziness visible: lexing produces the tokens yielded so far together with the pending error,
    and the parser only meets the error if it pulls past those tokens. */
module RegexLexer {
  import opened Wrappers
  import opened Text
  import opened RegexToken

  /** The single code point used as the Kleene star. */
  const KleeneGlyph: char := '…'

  /** `s.find(c, from)`: the first index at or after `from` holding `c`, or -1. */
  function Find(s: string, c: char, from: nat): (r: int)
    ensures r == -1 || (from <= r < |s| && s[r] == c)
    ensures r == -1 ==> forall i | from <= i < |s| :: s[i] != c
    ensures r != -1 ==> forall i | from <= i < r :: s[i] != c
    decreases |s| - from
  {
    if from >= |s| then -1 else if s[from] == c then from else Find(s, c, from + 1)
  }

  /** What one turn of the `while self.pos < self.length` loop does. */
  datatype Step = Emit(tok: Token, next: nat) | Fail(msg: string)

  /** The rule that fires at `pos`, tried in the order of the source: escape, `|`, Kleene glyph,
      `?`, `{n}`, `(<name>`, `<name>`, `(`, `)`, any other character. */
  function StepAt(s: string, pos: nat): (st: Step)
    requires pos < |s|
    ensures st.Emit? ==> pos < st.next <= |s|
  {
    var c := s[pos];
    if c == '%' && pos + 2 < |s| && s[pos + 2] == '%' then
      Emit(Token(CHAR, Str([s[pos + 1]])), pos + 3)
    else if c == '|' then Emit(Token(OR, NoValue), pos + 1)
    else if c == KleeneGlyph then Emit(Token(KLEENE, NoValue), pos + 1)
    else if c == '?' then Emit(Token(OPTIONAL, NoValue), pos + 1)
    else if c == '{' then
      var end := Find(s, '}', pos);
      if end == -1 then Fail("Unclosed repeat {x}")
      else
        var count := s[pos + 1..end];
        if !AllDigits(count) then Fail("Invalid repeat count: " + count)
        else Emit(Token(REPEAT, Num(DigitsValue(count))), end + 1)
    else if c == '(' && pos + 1 < |s| && s[pos + 1] == '<' then
      var nameEnd := Find(s, '>', pos + 2);
      if nameEnd == -1 then Fail("Unclosed named group (<name>")
      else
        var name := s[pos + 2..nameEnd];
        if !IsWord(name) then Fail("Invalid group name: " + name)
        else Emit(Token(NAMED_GROUP_START, Str(name)), nameEnd + 1)
    else if c == '<' then
      var nameEnd := Find(s, '>', pos);
      if nameEnd == -1 then Fail("Unclosed named reference <name>")
      else Emit(Token(NAMED_REF, Str(s[pos + 1..nameEnd])), nameEnd + 1)
    else if c == '(' then Emit(Token(LPAREN, NoValue), pos + 1)
    else if c == ')' then Emit(Token(RPAREN, NoValue), pos + 1)
    else Emit(Token(CHAR, Str([c])), pos + 1)
  }

  /** The tokens the generator yields, and the `ValueError` that ends it early, if any. */
  datatype LexOutput = LexOutput(tokens: seq<Token>, error: Option<Error>)

  function Prepend(ts: seq<Token>, o: LexOutput): LexOutput {
    LexOutput(ts + o.tokens, o.error)
  }

  /** Everything the generator yields from position `pos` on. */
  function LexFrom(s: string, pos: nat): LexOutput
    decreases |s| - pos
  {
    if pos >= |s| then LexOutput([Token(EOF, NoValue)], None)
    else
      match StepAt(s, pos)
      case Fail(m) => LexOutput([], Some(Error(ValueError, m)))
      case Emit(t, n) => Prepend([t], LexFrom(s, n))
  }

  /** `RegexLexer(s).lex()` run to exhaustion. */
  function Lex(s: string): LexOutput {
    LexFrom(s, 0)
  }

  /** A run that does not fail ends with exactly one `EOF`, and a failing run yields no `EOF`. */
  lemma {:induction false} LexEofOnlyAtEnd(s: string, pos: nat)
    ensures var o := LexFrom(s, pos);
            (o.error.None? ==> |o.tokens| > 0) &&
            forall i | 0 <= i < |o.tokens| :: o.tokens[i].ty == EOF <==> (o.error.None? && i == |o.tokens| - 1)
    decreases |s| - pos
  {
    if pos < |s| {
      match StepAt(s, pos)
      case Fail(m) =>
      case Emit(t, n) =>
        LexEofOnlyAtEnd(s, n);
        var o := LexFrom(s, pos);
        var rest := LexFrom(s, n);
        assert o.tokens == [t] + rest.tokens;
        forall i | 0 < i < |o.tokens|
          ensures o.tokens[i].ty == EOF <==> (o.error.None? && i == |o.tokens| - 1)
        {
          assert o.tokens[i] == rest.tokens[i - 1];
        }
    }
  }

  /** No rule of the lexer produces `NAMED_GROUP_END` or `EMPTY`. */
  lemma {:induction false} LexNeverEmitsUnusedKinds(s: string, pos: nat)
    ensures forall i | 0 <= i < |LexFrom(s, pos).tokens| ::
              LexFrom(s, pos).tokens[i].ty !in {NAMED_GROUP_END, EMPTY}
    decreases |s| - pos
  {
    if pos < |s| {
      match StepAt(s, pos)
      case Fail(m) =>
      case Emit(t, n) =>
        LexNeverEmitsUnusedKinds(s, n);
        var o := LexFrom(s, pos);
        forall i | 0 < i < |o.tokens| ensures o.tokens[i].ty !in {NAMED_GROUP_END, EMPTY} {
          assert o.tokens[i] == LexFrom(s, n).tokens[i - 1];
        }
    }
  }

  /** Every `CHAR` token carries exactly one character, every `REPEAT` a count, and every
      group token a name, as the parser expects. */
  predicate WellFormedToken(t: Token) {
    match t.ty
    case CHAR => t.value.Str? && |t.value.s| == 1
    case REPEAT => t.value.Num?
    case NAMED_GROUP_START => t.value.Str? && IsWord(t.value.s)
    case NAMED_REF => t.value.Str?
    case _ => t.value == NoValue
  }

  lemma {:induction false} LexTokensWellFormed(s: string, pos: nat)
    ensures forall i | 0 <= i < |LexFrom(s, pos).tokens| :: WellFormedToken(LexFrom(s, pos).tokens[i])
    decreases |s| - pos
  {
    if pos < |s| {
      match StepAt(s, pos)
      case Fail(m) =>
      case Emit(t, n) =>
        LexTokensWellFormed(s, n);
        var o := LexFrom(s, pos);
        forall i | 0 < i < |o.tokens| ensures WellFormedToken(o.tokens[i]) {
          assert o.tokens[i] == LexFrom(s, n).tokens[i - 1];
        }
    }
  }

  /** Characters with no meaning to the lexer. */
  predicate Plain(c: char) {
    c !in {'%', '|', KleeneGlyph, '?', '{', '(', '<', ')'}
  }

  /** A pattern made of plain characters lexes to one `CHAR` per character, then `EOF`. */
  lemma {:induction false} LexPlainText(s: string, pos: nat)
    requires pos <= |s|
    requires forall i | pos <= i < |s| :: Plain(s[i])
    ensures LexFrom(s, pos).error == None
    ensures |LexFrom(s, pos).tokens| == |s| - pos + 1
    ensures forall i | pos <= i < |s| :: LexFrom(s, pos).tokens[i - pos] == Token(CHAR, Str([s[i]]))
    decreases |s| - pos
  {
    if pos < |s| {
      LexPlainText(s, pos + 1);
      var o := LexFrom(s, pos);
      forall i | pos < i < |s| ensures o.tokens[i - pos] == Token(CHAR, Str([s[i]])) {
        assert o.tokens[i - pos] == LexFrom(s, pos + 1).tokens[i - (pos + 1)];
      }
    }
  }

  /** `%x%` is read as the literal `x` even when `x` is a metacharacter. */
  lemma EscapeIsLiteral(s: string, pos: nat)
    requires pos + 2 < |s| && s[pos] == '%' && s[pos + 2] == '%'
    ensures LexFrom(s, pos) == Prepend([Token(CHAR, Str([s[pos + 1]]))], LexFrom(s, pos + 3))
  {
  }

  /** `{n}` with a missing `}` or with anything but digits inside (including nothing) fails. */
  lemma RepeatErrors(s: string, pos: nat)
    requires pos < |s| && s[pos] == '{'
    requires Find(s, '}', pos) == -1 || !AllDigits(s[pos + 1..Find(s, '}', pos)])
    ensures LexFrom(s, pos).error.Some? && LexFrom(s, pos).error.value.kind == ValueError
    ensures LexFrom(s, pos).tokens == []
  {
  }

  /** The lexer object: the input, the cursor and the input's length. */
  class Lexer {
    const input: string
    var pos: nat
    const length: nat

    ghost predicate Valid()
      reads this
    {
      length == |input| && pos <= length
    }

    constructor (inputString: string)
      ensures Valid() && input == inputString && pos == 0
    {
      input := inputString;
      pos := 0;
      length := |inputString|;
    }

    /** The current character, or "" past the end. */
    function NextChar(): (c: string)
      requires Valid()
      reads this
      ensures pos < length ==> c == [input[pos]]
      ensures pos >= length ==> c == ""
    {
      if pos >= length then "" else [input[pos]]
    }

    method Advance()
      modifies this
      ensures pos == old(pos) + 1
    {
      pos := pos + 1;
    }

    /** `self.input.startswith(t, self.pos)` */
    predicate Match(t: string)
      requires Valid()
      reads this
    {
      pos + |t| <= |input| && input[pos..pos + |t|] == t
    }

    /** Runs the generator to exhaustion: the tokens yielded and the error it raised, if any. */
    method Lex() returns (out: LexOutput)
      requires Valid()
      modifies this
      ensures Valid()
      ensures out == LexFrom(input, old(pos))
      ensures out.error.None? ==> pos == length
    {
      ghost var start := pos;
      var yielded: seq<Token> := [];
      while pos < length
        invariant Valid()
        invariant LexFrom(input, start) == Prepend(yielded, LexFrom(input, pos))
        decreases length - pos
      {
        var st := NextStep();
        match st
        case Fail(m) =>
          out := LexOutput(yielded, Some(Error(ValueError, m)));
          LexFromFail(input, pos, yielded, m);
          return;
        case Emit(tok, next) =>
          LexFromEmit(input, pos, yielded, tok, next);
          yielded := yielded + [tok];
          pos := next;
      }
      out := LexOutput(yielded + [Token(EOF, NoValue)], None);
    }

    /** One turn of the loop in `lex`: the token read at the cursor and where reading goes on,
        or the message of the `ValueError` raised there. */
    method NextStep() returns (st: Step)
      requires Valid() && pos < length
      ensures st == StepAt(input, pos)
    {
      var c := input[pos];
      if c == '%' && pos + 2 < length && input[pos + 2] == '%' {
        st := Emit(Token(CHAR, Str([input[pos + 1]])), pos + 3);
      } else if c == '|' {
        st := Emit(Token(OR, NoValue), pos + 1);
      } else if Match([KleeneGlyph]) {
        st := Emit(Token(KLEENE, NoValue), pos + 1);
      } else if c == '?' {
        st := Emit(Token(OPTIONAL, NoValue), pos + 1);
      } else if c == '{' {
        var end := Find(input, '}', pos);
        if end == -1 {
          return Fail("Unclosed repeat {x}");
        }
        var repeatCount := input[pos + 1..end];
        if !AllDigits(repeatCount) {
          return Fail("Invalid repeat count: " + repeatCount);
        }
        st := Emit(Token(REPEAT, Num(DigitsValue(repeatCount))), end + 1);
      } else if Match("(<") {
        var nameEnd := Find(input, '>', pos + 2);
        if nameEnd == -1 {
          return Fail("Unclosed named group (<name>");
        }
        var groupName := input[pos + 2..nameEnd];
        if !IsWord(groupName) {
          return Fail("Invalid group name: " + groupName);
        }
        st := Emit(Token(NAMED_GROUP_START, Str(groupName)), nameEnd + 1);
      } else if c == '<' {
        var nameEnd := Find(input, '>', pos);
        if nameEnd == -1 {
          return Fail("Unclosed named reference <name>");
        }
        st := Emit(Token(NAMED_REF, Str(input[pos + 1..nameEnd])), nameEnd + 1);
      } else if c == '(' {
        st := Emit(Token(LPAREN, NoValue), pos + 1);
      } else if c == ')' {
        st := Emit(Token(RPAREN, NoValue), pos + 1);
      } else {
        st := Emit(Token(CHAR, Str([c])), pos + 1);
      }
    }
  }

  /** One yielded token moves from the pending part of the run to the yielded part. */
  lemma LexFromEmit(s: string, pos: nat, yielded: seq<Token>, t: Token, n: nat)
    requires pos < |s| && StepAt(s, pos) == Emit(t, n)
    ensures Prepend(yielded, LexFrom(s, pos)) == Prepend(yielded + [t], LexFrom(s, n))
  {
    assert yielded + ([t] + LexFrom(s, n).tokens) == (yielded + [t]) + LexFrom(s, n).tokens;
  }

  /** A failing rule ends the run with the tokens yielded so far. */
  lemma LexFromFail(s: string, pos: nat, yielded: seq<Token>, m: string)
    requires pos < |s| && StepAt(s, pos) == Fail(m)
    ensures Prepend(yielded, LexFrom(s, pos)) == LexOutput(yielded, Some(Error(ValueError, m)))
  {
  }
}
