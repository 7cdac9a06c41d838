/** Tokens of the pattern language (Lab2/RegexToken.py). */
module RegexToken {
  import opened Text

  /** The token kinds. `NAMED_GROUP_END` and `EMPTY` are declared but no lexer rule produces them. */
  datatype TokenType =
    | CHAR | OR | KLEENE | OPTIONAL | LPAREN | RPAREN | REPEAT
    | NAMED_GROUP_START | NAMED_GROUP_END | NAMED_REF | EMPTY | EOF

  /** A token's payload: Python's `None`, a string, or the integer of a `{n}` repeat. */
  datatype Value = NoValue | Str(s: string) | Num(n: nat)

  datatype Token = Token(ty: TokenType, value: Value)

  /** `Token(type_, value=None)`: the type is stored unchanged and an omitted value is `None`. */
  function NewToken(ty: TokenType, value: Value := NoValue): (t: Token)
    ensures t.ty == ty && t.value == value
  {
    Token(ty, value)
  }

  /** `TokenType.X.name` */
  function TypeName(ty: TokenType): string {
    match ty
    case CHAR => "CHAR"
    case OR => "OR"
    case KLEENE => "KLEENE"
    case OPTIONAL => "OPTIONAL"
    case LPAREN => "LPAREN"
    case RPAREN => "RPAREN"
    case REPEAT => "REPEAT"
    case NAMED_GROUP_START => "NAMED_GROUP_START"
    case NAMED_GROUP_END => "NAMED_GROUP_END"
    case NAMED_REF => "NAMED_REF"
    case EMPTY => "EMPTY"
    case EOF => "EOF"
  }

  /** Python truthiness of a payload: `None`, `""` and `0` are false. */
  predicate Truthy(v: Value) {
    match v
    case NoValue => false
    case Str(s) => s != ""
    case Num(n) => n != 0
  }

  /** `f"{v}"` for a payload that is not `None`. */
  function ValueText(v: Value): string {
    match v
    case NoValue => "None"
    case Str(s) => s
    case Num(n) => NatToString(n)
  }

  /** `Token.__repr__`: `NAME(value)` when the value is truthy, the bare name otherwise. */
  function Repr(t: Token): (r: string)
    ensures |TypeName(t.ty)| <= |r| && r[..|TypeName(t.ty)|] == TypeName(t.ty)
    ensures r == TypeName(t.ty) <==> !Truthy(t.value)
    ensures Truthy(t.value) ==> r[|TypeName(t.ty)|] == '(' && r[|r| - 1] == ')'
  {
    if Truthy(t.value) then TypeName(t.ty) + "(" + ValueText(t.value) + ")" else TypeName(t.ty)
  }

  /** A falsy payload disappears from the repr: `REPEAT(0)` prints like a `REPEAT` without a count. */
  lemma ReprDropsFalsyValue(ty: TokenType, v: Value)
    requires !Truthy(v)
    ensures Repr(Token(ty, v)) == Repr(Token(ty, NoValue)) == TypeName(ty)
  {
  }

  /** A truthy payload can be read back from between the parentheses of the repr. */
  lemma ReprShowsTruthyValue(t: Token)
    requires Truthy(t.value)
    ensures var r := Repr(t); var k := |TypeName(t.ty)|;
            r[k + 1..|r| - 1] == ValueText(t.value)
  {
  }

  /** The repr of a repeat count shows the count in decimal, which reads back as the count. */
  lemma ReprRepeatCount(n: nat)
    requires n != 0
    ensures var r := Repr(Token(REPEAT, Num(n)));
            r[7..|r| - 1] == NatToString(n) && DigitsValue(r[7..|r| - 1]) == n
  {
    NatToStringRoundTrip(n);
  }
}
