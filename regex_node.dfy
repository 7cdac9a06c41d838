/** The pattern syntax tree (Lab2/RegexNode.py). */
module RegexNode {
  import opened Wrappers
  import opened Text
  import opened RegexToken

  /** The node kinds. `GROUP` is declared but never built: plain parentheses yield their inner node. */
  datatype RegexOp = CHAR | CONCAT | ALT | KLEENE | OPTIONAL | REPEAT | GROUP | NAMED_GROUP | NAMED_REF

  /** A node: its kind, an optional value (the character of `CHAR`, the count of `REPEAT`),
      its children and an optional group name. */
  datatype RegexNode = RegexNode(op: RegexOp, value: Value, children: seq<RegexNode>, name: Option<string>)

  /** `RegexNode(op, value=None, children=None, name=None)`: `children or []`. */
  function NewNode(op: RegexOp, value: Value := NoValue, children: Option<seq<RegexNode>> := None,
                   name: Option<string> := None): (n: RegexNode)
    ensures n.op == op && n.value == value && n.name == name
    ensures children.None? ==> n.children == []
    ensures children.Some? ==> n.children == children.value
  {
    RegexNode(op, value, if children.Some? then children.value else [], name)
  }

  function OpName(op: RegexOp): string {
    match op
    case CHAR => "CHAR"
    case CONCAT => "CONCAT"
    case ALT => "ALT"
    case KLEENE => "KLEENE"
    case OPTIONAL => "OPTIONAL"
    case REPEAT => "REPEAT"
    case GROUP => "GROUP"
    case NAMED_GROUP => "NAMED_GROUP"
    case NAMED_REF => "NAMED_REF"
  }

  /** `'  ' * level` */
  function Indent(level: nat): (s: string)
    ensures |s| == 2 * level
    ensures forall i | 0 <= i < |s| :: s[i] == ' '
  {
    if level == 0 then "" else "  " + Indent(level - 1)
  }

  /** The first line of a node's repr: the kind, then `(value)` and `<name>` when present. */
  function Base(n: RegexNode): string {
    OpName(n.op)
    + (if n.value != NoValue then "(" + ValueText(n.value) + ")" else "")
    + (if n.name.Some? then "<" + n.name.value + ">" else "")
  }

  /** `RegexNode.__repr__(level)` */
  function Repr(n: RegexNode, level: nat): string
    decreases n, |n.children| + 1
  {
    if n.children == [] then Indent(level) + Base(n)
    else Indent(level) + Base(n) + "(\n" + JoinChildren(n, 0, level + 1) + "\n" + Indent(level) + ")"
  }

  /** `",\n".join(child.__repr__(level) for child in n.children[i:])` */
  function JoinChildren(n: RegexNode, i: nat, level: nat): string
    requires i <= |n.children|
    decreases n, |n.children| - i
  {
    if i == |n.children| then ""
    else if i == |n.children| - 1 then Repr(n.children[i], level)
    else Repr(n.children[i], level) + ",\n" + JoinChildren(n, i + 1, level)
  }

  /** Every repr starts with the indentation of its level followed by the node's first line. */
  lemma ReprStartsWithBase(n: RegexNode, level: nat)
    ensures var p := Indent(level) + Base(n);
            |p| <= |Repr(n, level)| && Repr(n, level)[..|p|] == p
  {
  }

  /** A node with children closes with a newline, its own indentation and `)`. */
  lemma ReprClosesParent(n: RegexNode, level: nat)
    requires n.children != []
    ensures var r := Repr(n, level); var suffix := "\n" + Indent(level) + ")";
            |suffix| <= |r| && r[|r| - |suffix|..] == suffix
  {
  }

  /** The children's reprs, at the next level, each start a line of their own after `(` or `,`. */
  lemma {:induction false} JoinChildrenStartsWithFirst(n: RegexNode, i: nat, level: nat)
    requires i < |n.children|
    ensures var p := Indent(level) + Base(n.children[i]);
            |p| <= |JoinChildren(n, i, level)| && JoinChildren(n, i, level)[..|p|] == p
  {
    ReprStartsWithBase(n.children[i], level);
    var p := Indent(level) + Base(n.children[i]);
    var r := Repr(n.children[i], level);
    if i < |n.children| - 1 {
      assert JoinChildren(n, i, level) == r + (",\n" + JoinChildren(n, i + 1, level));
      assert (r + (",\n" + JoinChildren(n, i + 1, level)))[..|p|] == r[..|p|];
    }
  }

  /** The shapes the parser builds: `CHAR` holds one character, `CONCAT` and `ALT` at least two
      children, the suffix and group nodes exactly one, and `GROUP` never occurs. */
  predicate WellFormed(n: RegexNode)
    decreases n
  {
    match n.op
    case CHAR => n.value.Str? && |n.value.s| == 1 && n.children == [] && n.name.None?
    case CONCAT => |n.children| >= 2 && n.value == NoValue && n.name.None?
                   && forall c | c in n.children :: WellFormed(c)
    case ALT => |n.children| >= 2 && n.value == NoValue && n.name.None?
                && forall c | c in n.children :: WellFormed(c)
    case KLEENE => |n.children| == 1 && n.value == NoValue && n.name.None? && WellFormed(n.children[0])
    case OPTIONAL => |n.children| == 1 && n.value == NoValue && n.name.None? && WellFormed(n.children[0])
    case REPEAT => |n.children| == 1 && n.value.Num? && n.name.None? && WellFormed(n.children[0])
    case GROUP => false
    case NAMED_GROUP => |n.children| == 1 && n.value == NoValue && n.name.Some? && IsWord(n.name.value)
                        && WellFormed(n.children[0])
    case NAMED_REF => n.children == [] && n.value == NoValue && n.name.Some?
  }
}
