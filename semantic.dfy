/** The type checker of the robot language (Lab3/src/semantic.py) over the syntax tree of
    Lab3/src/ast_nodes.py. */
module Semantic {
  import opened Wrappers
  import opened Text

  // ----- Syntax tree

  /** The type names the checker compares: `'INT'`, `'BOOLEAN'` and `'MAP'`. */
  datatype Ty = INT | BOOLEAN | MAP

  /** The declared type of a `ConstDecl`: `'CINT'` or `'CBOOLEAN'`. */
  datatype ConstTy = CINT | CBOOLEAN

  /** `'INT' if typ == 'CINT' else 'BOOLEAN'` */
  function BaseOf(c: ConstTy): Ty {
    if c == CINT then INT else BOOLEAN
  }

  /** The nodes the grammar places in expression position. Operators are kept as the strings the
      parser stores, so an operator the checker does not know can be written down. */
  datatype Expr =
    | IntLiteral(value: int)
    | BoolLiteral(b: bool)
    | VarRef(name: string)
    | BinaryOp(op: string, left: Expr, right: Expr)
    | UnaryOp(op: string, operand: Expr)
    | ProcCall(name: string, args: seq<Expr>)
    | RobotOp(op: string)
    | IncDec(op: string, target: Expr, amount: Expr)

  /** The nodes a statement list holds. An expression standing as a statement is `ExprStmt`. */
  datatype Stmt =
    | VarDecl(typ: Ty, name: string, init: Expr)
    | ConstDecl(ctyp: ConstTy, name: string, init: Expr)
    | MapDecl(name: string)
    | ProcDecl(name: string, params: seq<string>, body: Block)
    | Assign(name: string, value: Expr)
    | IfStmt(cond: Expr, thenBlock: Block, elseBlock: Option<Block>)
    | WhileStmt(cond: Expr, block: Block)
    | MapOp(op: string, resVar: string, mapName: string, x: Expr, y: Expr)
    | PrintStmt(expr: Option<Expr>)
    | ExprStmt(e: Expr)

  datatype Block = Block(statements: seq<Stmt>)

  datatype Program = Program(directives: seq<Stmt>)

  // ----- Symbol tables

  /** `Symbol(name, typ, is_const)` and `ProcSymbol(name, params, scope)`. */
  datatype Symbol =
    | Sym(name: string, typ: Ty, isConst: bool)
    | ProcSym(name: string, params: seq<string>, body: Block)

  type Table = map<string, Symbol>

  /** `SemanticAnalyzer.error`: the nodes carry no line number, so the prefix is always `[Line ?]`. */
  function Fail(msg: string): Error {
    Error(SemanticError, "[Line ?] " + msg)
  }

  /** Reading `is_const` or `typ` of a `ProcSymbol`, which has neither. */
  function NoAttribute(attr: string): Error {
    Error(AttributeError, "'ProcSymbol' object has no attribute '" + attr + "'")
  }

  /** The symbol stored under `key`: the innermost scope holding it, else the globals. */
  function Find(scopes: seq<Table>, globals: Table, key: string): (r: Option<Symbol>)
    ensures r.None? <==> key !in globals && forall i | 0 <= i < |scopes| :: key !in scopes[i]
    ensures r.Some? && key !in globals ==> exists i | 0 <= i < |scopes| :: key in scopes[i]
  {
    if scopes == [] then
      if key in globals then Some(globals[key]) else None
    else if key in scopes[|scopes| - 1] then Some(scopes[|scopes| - 1][key])
    else Find(scopes[..|scopes| - 1], globals, key)
  }

  /** `lookup(name)`: case-insensitive search from the innermost scope outwards, then the globals. */
  function LookupIn(scopes: seq<Table>, globals: Table, name: string): Option<Symbol> {
    Find(scopes, globals, Lower(name))
  }

  /** The innermost scope holding a key decides, whatever the outer scopes and globals hold. */
  lemma {:induction false} FindInnermost(scopes: seq<Table>, globals: Table, key: string, i: nat)
    requires i < |scopes| && key in scopes[i]
    requires forall j | i < j < |scopes| :: key !in scopes[j]
    ensures Find(scopes, globals, key) == Some(scopes[i][key])
    decreases |scopes|
  {
    if i < |scopes| - 1 {
      var init := scopes[..|scopes| - 1];
      assert forall j | i < j < |init| :: init[j] == scopes[j];
      FindInnermost(init, globals, key, i);
    }
  }

  /** The globals are consulted only when no scope holds the key. */
  lemma {:induction false} FindGlobal(scopes: seq<Table>, globals: Table, key: string)
    requires forall j | 0 <= j < |scopes| :: key !in scopes[j]
    ensures Find(scopes, globals, key) == if key in globals then Some(globals[key]) else None
    decreases |scopes|
  {
    if scopes != [] {
      FindGlobal(scopes[..|scopes| - 1], globals, key);
    }
  }

  /** Names differing only in letter case denote the same symbol. */
  lemma LookupCaseInsensitive(scopes: seq<Table>, globals: Table, name: string)
    ensures LookupIn(scopes, globals, name) == LookupIn(scopes, globals, Lower(name))
  {
    LowerIdempotent(name);
  }

  // ----- Expression typing

  /** `visit_BinaryOp` once both operands are visited: the operator table. */
  function BinaryType(op: string, l: Option<Ty>, r: Option<Ty>): Result<Option<Ty>> {
    if op == "+" || op == "-" then
      if l != Some(INT) || r != Some(INT) then Err(Fail(op + " expects INT operands")) else Ok(Some(INT))
    else if op == "GT" || op == "LT" then
      if l != Some(INT) || r != Some(INT) then Err(Fail(op + " expects INT operands")) else Ok(Some(BOOLEAN))
    else if op == "EQ" then
      if l != r then Err(Fail("EQ expects operands of the same type")) else Ok(Some(BOOLEAN))
    else if op == "OR" then
      if l != Some(BOOLEAN) || r != Some(BOOLEAN) then Err(Fail("OR expects BOOLEAN operands")) else Ok(Some(BOOLEAN))
    else Err(Fail("unknown binary operator " + op))
  }

  /** `visit(e)` for an expression: the type name it yields (`None` for `IncDec`, whose visitor
      returns nothing), or the first error raised. Expressions only read the tables. */
  function TypeOf(scopes: seq<Table>, globals: Table, e: Expr): Result<Option<Ty>>
    decreases e
  {
    match e
    case IntLiteral(_) => Ok(Some(INT))
    case BoolLiteral(_) => Ok(Some(BOOLEAN))
    case VarRef(name) =>
      (match LookupIn(scopes, globals, name)
       case None => Err(Fail("variable " + name + " is not declared"))
       case Some(ProcSym(_, _, _)) => Err(Fail("procedure name " + name + " used as a variable"))
       case Some(Sym(_, t, _)) => Ok(Some(t)))
    case BinaryOp(op, left, right) =>
      (match TypeOf(scopes, globals, left)
       case Err(err) => Err(err)
       case Ok(lt) =>
         match TypeOf(scopes, globals, right)
         case Err(err) => Err(err)
         case Ok(rt) => BinaryType(op, lt, rt))
    case UnaryOp(op, operand) =>
      if op != "NOT" then Err(Fail("unknown unary operator " + op))
      else
        (match TypeOf(scopes, globals, operand)
         case Err(err) => Err(err)
         case Ok(t) => if t != Some(BOOLEAN) then Err(Fail("NOT expects BOOLEAN")) else Ok(Some(BOOLEAN)))
    case ProcCall(name, args) =>
      (match LookupIn(scopes, globals, name)
       case Some(ProcSym(_, params, _)) =>
         if |args| != |params| then Err(Fail("wrong number of arguments to " + name))
         else
           (match ArgsError(scopes, globals, args)
            case Some(err) => Err(err)
            case None => Ok(Some(INT)))
       case _ => Err(Fail("procedure " + name + " not found")))
    case RobotOp(op) => if op == "LOOK" then Ok(Some(INT)) else Ok(Some(BOOLEAN))
    case IncDec(_, target, value) =>
      (match IncDecTargetError(scopes, globals, target)
       case Some(err) => Err(err)
       case None =>
         match TypeOf(scopes, globals, value)
         case Err(err) => Err(err)
         case Ok(tv) =>
           match TypeOf(scopes, globals, target)
           case Err(err) => Err(err)
           case Ok(tt) => if tv != Some(INT) || tt != Some(INT) then Err(Fail("INC/DEC only for INT")) else Ok(None))
  }

  /** The check `visit_IncDec` makes before visiting anything: a named target must not be a
      constant (and reading `is_const` of a procedure fails). */
  function IncDecTargetError(scopes: seq<Table>, globals: Table, target: Expr): Option<Error> {
    if !target.VarRef? then None
    else
      match LookupIn(scopes, globals, target.name)
      case Some(ProcSym(_, _, _)) => Some(NoAttribute("is_const"))
      case Some(Sym(name, _, true)) => Some(Fail("cannot INC/DEC constant " + name))
      case _ => None
  }

  /** The arguments of a call are visited left to right; the first error stops the visit. */
  function ArgsError(scopes: seq<Table>, globals: Table, args: seq<Expr>): (r: Option<Error>)
    ensures r.None? <==> forall i | 0 <= i < |args| :: TypeOf(scopes, globals, args[i]).Ok?
    decreases args
  {
    if args == [] then None
    else
      match TypeOf(scopes, globals, args[0])
      case Err(err) => Some(err)
      case Ok(_) =>
        var rest := ArgsError(scopes, globals, args[1..]);
        assert forall i | 1 <= i < |args| :: args[i] == args[1..][i - 1];
        rest
  }

  /** The names an expression looks up. */
  function NamesOf(e: Expr): set<string>
    decreases e
  {
    match e
    case IntLiteral(_) => {}
    case BoolLiteral(_) => {}
    case VarRef(name) => {name}
    case BinaryOp(_, l, r) => NamesOf(l) + NamesOf(r)
    case UnaryOp(op, x) => if op == "NOT" then NamesOf(x) else {}
    case ProcCall(name, args) => {name} + ArgsNames(args)
    case RobotOp(_) => {}
    case IncDec(_, t, v) => NamesOf(t) + NamesOf(v)
  }

  function ArgsNames(args: seq<Expr>): set<string>
    decreases args
  {
    if args == [] then {} else NamesOf(args[0]) + ArgsNames(args[1..])
  }

  /** Two environments that agree on every name an expression mentions give it the same type:
      typing reads nothing but those look-ups. */
  lemma {:induction false} TypeOfLocal(sc1: seq<Table>, g1: Table, sc2: seq<Table>, g2: Table, e: Expr)
    requires forall n | n in NamesOf(e) :: LookupIn(sc1, g1, n) == LookupIn(sc2, g2, n)
    ensures TypeOf(sc1, g1, e) == TypeOf(sc2, g2, e)
    decreases e
  {
    match e
    case IntLiteral(_) =>
    case BoolLiteral(_) =>
    case VarRef(name) =>
    case BinaryOp(_, l, r) =>
      TypeOfLocal(sc1, g1, sc2, g2, l);
      TypeOfLocal(sc1, g1, sc2, g2, r);
    case UnaryOp(op, x) =>
      if op == "NOT" {
        TypeOfLocal(sc1, g1, sc2, g2, x);
      }
    case ProcCall(name, args) =>
      assert name in NamesOf(e);
      ArgsLocal(sc1, g1, sc2, g2, args);
    case RobotOp(_) =>
    case IncDec(_, t, v) =>
      TypeOfLocal(sc1, g1, sc2, g2, t);
      TypeOfLocal(sc1, g1, sc2, g2, v);
  }

  lemma {:induction false} ArgsLocal(sc1: seq<Table>, g1: Table, sc2: seq<Table>, g2: Table, args: seq<Expr>)
    requires forall n | n in ArgsNames(args) :: LookupIn(sc1, g1, n) == LookupIn(sc2, g2, n)
    ensures ArgsError(sc1, g1, args) == ArgsError(sc2, g2, args)
    decreases args
  {
    if args != [] {
      TypeOfLocal(sc1, g1, sc2, g2, args[0]);
      ArgsLocal(sc1, g1, sc2, g2, args[1..]);
    }
  }

  /** Opening an empty scope changes the type of no expression. */
  lemma TypeOfUnderEmptyScope(scopes: seq<Table>, globals: Table, e: Expr)
    ensures TypeOf(scopes + [map[]], globals, e) == TypeOf(scopes, globals, e)
  {
    forall n | n in NamesOf(e) ensures LookupIn(scopes + [map[]], globals, n) == LookupIn(scopes, globals, n) {
      assert (scopes + [map[]])[..|scopes|] == scopes;
    }
    TypeOfLocal(scopes + [map[]], globals, scopes, globals, e);
  }

  /** Only a variable reference can have type `MAP`, and only an `IncDec` has no type. */
  lemma {:induction false} TypeOfShape(scopes: seq<Table>, globals: Table, e: Expr)
    ensures TypeOf(scopes, globals, e) == Ok(Some(MAP)) ==> e.VarRef?
    ensures TypeOf(scopes, globals, e) == Ok(None) <==> e.IncDec? && TypeOf(scopes, globals, e).Ok?
  {
  }

  /** The operator table of `visit_BinaryOp`, in terms of the operand types. */
  lemma BinaryTyping(scopes: seq<Table>, globals: Table, op: string, l: Expr, r: Expr, t: Ty)
    ensures TypeOf(scopes, globals, BinaryOp(op, l, r)) == Ok(Some(t)) <==>
              var lt, rt := TypeOf(scopes, globals, l), TypeOf(scopes, globals, r);
              lt.Ok? && rt.Ok? &&
              ( (op in {"+", "-"} && t == INT && lt.value == rt.value == Some(INT))
              || (op in {"GT", "LT"} && t == BOOLEAN && lt.value == rt.value == Some(INT))
              || (op == "EQ" && t == BOOLEAN && lt.value == rt.value)
              || (op == "OR" && t == BOOLEAN && lt.value == rt.value == Some(BOOLEAN)))
  {
  }

  // ----- Statement conditions

  /** `declare` into the innermost scope, or nowhere when there is none (global declarations are
      made before the statements are visited). */
  function Declared(scopes: seq<Table>, sym: Symbol): (r: seq<Table>)
    ensures |r| == |scopes|
    ensures scopes != [] ==> r[..|r| - 1] == scopes[..|scopes| - 1]
  {
    if scopes == [] then scopes
    else scopes[..|scopes| - 1] + [scopes[|scopes| - 1][Lower(sym.name) := sym]]
  }

  /** A declaration inside a scope must not repeat a name of that scope. */
  predicate DeclFits(scopes: seq<Table>, name: string) {
    scopes == [] || Lower(name) !in scopes[|scopes| - 1]
  }

  /** Parameters are declared one by one in the procedure's scope, so no two may share a name. */
  predicate KeysDistinct(names: seq<string>) {
    forall i, j | 0 <= i < j < |names| :: Lower(names[i]) != Lower(names[j])
  }

  /** The scopes after a statement that succeeded. */
  function ScopesAfter(scopes: seq<Table>, s: Stmt): (r: seq<Table>)
    ensures |r| == |scopes|
    ensures scopes != [] ==> r[..|r| - 1] == scopes[..|scopes| - 1]
  {
    match s
    case VarDecl(typ, name, _) => Declared(scopes, Sym(name, typ, false))
    case ConstDecl(ctyp, name, _) => Declared(scopes, Sym(name, BaseOf(ctyp), true))
    case _ => scopes
  }

  /** What a statement requires of the tables it is checked against, apart from the blocks it
      contains. */
  predicate Fits(scopes: seq<Table>, globals: Table, s: Stmt) {
    match s
    case VarDecl(typ, name, init) =>
      DeclFits(scopes, name) && TypeOf(ScopesAfter(scopes, s), globals, init) == Ok(Some(typ))
    case ConstDecl(ctyp, name, init) =>
      DeclFits(scopes, name) && TypeOf(ScopesAfter(scopes, s), globals, init) == Ok(Some(BaseOf(ctyp)))
    case MapDecl(_) => true
    case ProcDecl(_, params, _) => KeysDistinct(params)
    case Assign(name, value) =>
      (match LookupIn(scopes, globals, name)
       case Some(Sym(_, t, false)) => TypeOf(scopes, globals, value) == Ok(Some(t))
       case _ => false)
    case IfStmt(cond, _, _) => TypeOf(scopes, globals, cond) == Ok(Some(BOOLEAN))
    case WhileStmt(cond, _) => TypeOf(scopes, globals, cond) == Ok(Some(BOOLEAN))
    case MapOp(_, resVar, _, x, y) =>
      (match LookupIn(scopes, globals, resVar)
       case Some(Sym(_, BOOLEAN, _)) =>
         TypeOf(scopes, globals, x) == Ok(Some(INT)) && TypeOf(scopes, globals, y) == Ok(Some(INT))
       case _ => false)
    case PrintStmt(e) => e.None? || TypeOf(scopes, globals, e.value).Ok?
    case ExprStmt(e) => TypeOf(scopes, globals, e).Ok?
  }

  /** A statement with no block inside it. */
  predicate Flat(s: Stmt) {
    !s.ProcDecl? && !s.IfStmt? && !s.WhileStmt?
  }

  /** Everything `visit` checks of a statement: it fits the tables, and each block inside it
      passes in a scope of its own; a procedure's body sits inside the scope of its parameters. */
  predicate StmtChecks(scopes: seq<Table>, globals: Table, s: Stmt)
    decreases s, 1
  {
    Fits(scopes, globals, s) &&
    match s
    case ProcDecl(_, params, body) => BlockChecks(scopes + [ParamTable(params)], globals, body)
    case IfStmt(_, thenBlock, elseBlock) =>
      BlockChecks(scopes, globals, thenBlock)
      && (elseBlock.Some? ==> BlockChecks(scopes, globals, elseBlock.value))
    case WhileStmt(_, block) => BlockChecks(scopes, globals, block)
    case _ => true
  }

  /** `visit_Block` under `scopes`: the statements pass in order in a fresh innermost scope. */
  predicate BlockChecks(scopes: seq<Table>, globals: Table, b: Block)
    decreases b, 1
  {
    StmtsCheck(scopes + [map[]], globals, b, 0)
  }

  /** The statements of `b` from index `i` on pass in order, each against the scopes the ones
      before it left. */
  predicate StmtsCheck(scopes: seq<Table>, globals: Table, b: Block, i: nat)
    decreases b, 0, |b.statements| - i
  {
    i >= |b.statements| ||
    (assert b.statements[i] in b.statements;
     StmtChecks(scopes, globals, b.statements[i])
     && StmtsCheck(ScopesAfter(scopes, b.statements[i]), globals, b, i + 1))
  }

  /** Blocks are checked statement by statement: a constant assigned first thing in an `IF`'s
      branch fails the whole `IF`, as the same assignment outside the block would. */
  lemma ConstAssignInBranchRejected(scopes: seq<Table>, globals: Table, cond: Expr, name: string, value: Expr,
                                    rest: seq<Stmt>, elseBlock: Option<Block>)
    requires LookupIn(scopes, globals, name).Some? && LookupIn(scopes, globals, name).value.Sym?
    requires LookupIn(scopes, globals, name).value.isConst
    ensures !StmtChecks(scopes, globals, IfStmt(cond, Block([Assign(name, value)] + rest), elseBlock))
  {
    var inner := scopes + [map[]];
    assert inner[..|inner| - 1] == scopes;
    assert LookupIn(inner, globals, name) == LookupIn(scopes, globals, name);
    var b := Block([Assign(name, value)] + rest);
    assert !StmtChecks(inner, globals, b.statements[0]);
    assert !StmtsCheck(inner, globals, b, 0);
    assert !BlockChecks(scopes, globals, b);
  }

  // ----- Phase 1 of analyze

  /** The symbol phase 1 records for a directive, if any. */
  function GlobalSymbol(d: Stmt): Option<Symbol> {
    match d
    case VarDecl(typ, name, _) => Some(Sym(name, typ, false))
    case ConstDecl(ctyp, name, _) => Some(Sym(name, BaseOf(ctyp), true))
    case MapDecl(name) => Some(Sym(name, MAP, false))
    case ProcDecl(name, params, body) => Some(ProcSym(name, params, body))
    case _ => None
  }

  /** Phase 1 on an empty scope stack: variables, constants and maps are declared (a repeated name
      fails), procedures are stored without that check. */
  function DeclareGlobals(globals: Table, ds: seq<Stmt>): Result<Table>
    decreases |ds|
  {
    if ds == [] then Ok(globals)
    else
      var d := ds[0];
      match GlobalSymbol(d)
      case None => DeclareGlobals(globals, ds[1..])
      case Some(sym) =>
        var key := Lower(sym.name);
        if sym.Sym? && key in globals then Err(Fail("repeated declaration of '" + sym.name + "'"))
        else DeclareGlobals(globals[key := sym], ds[1..])
  }

  /** The key a directive declares in phase 1. */
  function KeyOf(d: Stmt): string
    requires GlobalSymbol(d).Some?
  {
    Lower(GlobalSymbol(d).value.name)
  }

  /** Phase 1 succeeds exactly when no variable, constant or map reuses a name that is already
      global or was declared (in any way) by an earlier directive. */
  predicate NoGlobalClash(globals: Table, ds: seq<Stmt>) {
    forall i | 0 <= i < |ds| && GlobalSymbol(ds[i]).Some? && GlobalSymbol(ds[i]).value.Sym? ::
      KeyOf(ds[i]) !in globals &&
      forall j | 0 <= j < i && GlobalSymbol(ds[j]).Some? :: KeyOf(ds[j]) != KeyOf(ds[i])
  }

  /** The keys phase 1 adds. */
  function DeclaredKeys(ds: seq<Stmt>): set<string> {
    set i | 0 <= i < |ds| && GlobalSymbol(ds[i]).Some? :: KeyOf(ds[i])
  }

  lemma {:induction false} DeclareGlobalsOk(globals: Table, ds: seq<Stmt>)
    ensures DeclareGlobals(globals, ds).Ok? <==> NoGlobalClash(globals, ds)
    ensures DeclareGlobals(globals, ds).Ok? ==> DeclareGlobals(globals, ds).value.Keys == globals.Keys + DeclaredKeys(ds)
    decreases |ds|
  {
    if ds != [] {
      var rest := ds[1..];
      match GlobalSymbol(ds[0])
      case None =>
        DeclareGlobalsOk(globals, rest);
        ClashSkip(globals, ds);
        KeysSkip(ds);
      case Some(sym) =>
        var key := Lower(sym.name);
        assert key == KeyOf(ds[0]);
        var g' := globals[key := sym];
        if sym.Sym? && key in globals {
          assert !NoGlobalClash(globals, ds) by {
            assert GlobalSymbol(ds[0]).Some? && GlobalSymbol(ds[0]).value.Sym?;
          }
        } else {
          DeclareGlobalsOk(g', rest);
          ClashStep(globals, ds, sym);
          KeysStep(ds);
        }
    }
  }

  /** A directive that declares nothing leaves the clash condition as it is. */
  lemma ClashSkip(globals: Table, ds: seq<Stmt>)
    requires ds != [] && GlobalSymbol(ds[0]).None?
    ensures NoGlobalClash(globals, ds) <==> NoGlobalClash(globals, ds[1..])
  {
    var rest := ds[1..];
    assert forall i | 0 <= i < |rest| :: rest[i] == ds[i + 1];
    if NoGlobalClash(globals, rest) {
      forall i | 0 <= i < |ds| && GlobalSymbol(ds[i]).Some? && GlobalSymbol(ds[i]).value.Sym?
        ensures KeyOf(ds[i]) !in globals && forall j | 0 <= j < i && GlobalSymbol(ds[j]).Some? :: KeyOf(ds[j]) != KeyOf(ds[i])
      {
        assert i > 0 && ds[i] == rest[i - 1];
        forall j | 0 <= j < i && GlobalSymbol(ds[j]).Some? ensures KeyOf(ds[j]) != KeyOf(ds[i]) {
          assert j > 0 && ds[j] == rest[j - 1];
        }
      }
    }
  }

  /** A directive that declares nothing adds no key. */
  lemma KeysSkip(ds: seq<Stmt>)
    requires ds != [] && GlobalSymbol(ds[0]).None?
    ensures DeclaredKeys(ds) == DeclaredKeys(ds[1..])
  {
    var rest := ds[1..];
    forall k ensures k in DeclaredKeys(ds) <==> k in DeclaredKeys(rest) {
      if k in DeclaredKeys(ds) {
        var i :| 0 <= i < |ds| && GlobalSymbol(ds[i]).Some? && KeyOf(ds[i]) == k;
        assert i > 0 && ds[i] == rest[i - 1];
      }
      if k in DeclaredKeys(rest) {
        var i :| 0 <= i < |rest| && GlobalSymbol(rest[i]).Some? && KeyOf(rest[i]) == k;
        assert ds[i + 1] == rest[i];
      }
    }
  }

  /** A declaring directive adds its own key. */
  lemma KeysStep(ds: seq<Stmt>)
    requires ds != [] && GlobalSymbol(ds[0]).Some?
    ensures DeclaredKeys(ds) == {KeyOf(ds[0])} + DeclaredKeys(ds[1..])
  {
    var rest := ds[1..];
    var key := KeyOf(ds[0]);
    forall k ensures k in DeclaredKeys(ds) <==> k == key || k in DeclaredKeys(rest) {
      if k in DeclaredKeys(ds) && k != key {
        var i :| 0 <= i < |ds| && GlobalSymbol(ds[i]).Some? && KeyOf(ds[i]) == k;
        assert i > 0 && ds[i] == rest[i - 1];
      }
      if k in DeclaredKeys(rest) {
        var i :| 0 <= i < |rest| && GlobalSymbol(rest[i]).Some? && KeyOf(rest[i]) == k;
        assert ds[i + 1] == rest[i];
      }
    }
  }

  /** One declaring directive moves its key from the clash condition into the table. */
  lemma ClashStep(globals: Table, ds: seq<Stmt>, sym: Symbol)
    requires ds != [] && GlobalSymbol(ds[0]) == Some(sym)
    requires !(sym.Sym? && Lower(sym.name) in globals)
    ensures NoGlobalClash(globals, ds) <==> NoGlobalClash(globals[Lower(sym.name) := sym], ds[1..])
  {
    var key := Lower(sym.name);
    var g' := globals[key := sym];
    var rest := ds[1..];
    assert forall i | 0 <= i < |rest| :: rest[i] == ds[i + 1];
    assert KeyOf(ds[0]) == key;
    if NoGlobalClash(globals, ds) {
      forall i | 0 <= i < |rest| && GlobalSymbol(rest[i]).Some? && GlobalSymbol(rest[i]).value.Sym?
        ensures KeyOf(rest[i]) !in g' && forall j | 0 <= j < i && GlobalSymbol(rest[j]).Some? :: KeyOf(rest[j]) != KeyOf(rest[i])
      {
        assert ds[i + 1] == rest[i];
        forall j | 0 <= j < i && GlobalSymbol(rest[j]).Some? ensures KeyOf(rest[j]) != KeyOf(rest[i]) {
          assert ds[j + 1] == rest[j];
        }
      }
    }
    if NoGlobalClash(g', rest) {
      forall i | 0 <= i < |ds| && GlobalSymbol(ds[i]).Some? && GlobalSymbol(ds[i]).value.Sym?
        ensures KeyOf(ds[i]) !in globals && forall j | 0 <= j < i && GlobalSymbol(ds[j]).Some? :: KeyOf(ds[j]) != KeyOf(ds[i])
      {
        if i > 0 {
          assert ds[i] == rest[i - 1];
          forall j | 0 <= j < i && GlobalSymbol(ds[j]).Some? ensures KeyOf(ds[j]) != KeyOf(ds[i]) {
            if j > 0 {
              assert ds[j] == rest[j - 1];
            }
          }
        }
      }
    }
  }

  // ----- The analyzer

  /** The table a list of parameters makes: each under its lower-cased name, as an `INT`
      variable. */
  function ParamTable(params: seq<string>): (t: Table)
    ensures t.Keys == set i | 0 <= i < |params| :: Lower(params[i])
  {
    if params == [] then map[]
    else
      var init := ParamTable(params[..|params| - 1]);
      var p := params[|params| - 1];
      assert forall i | 0 <= i < |params| - 1 :: params[..|params| - 1][i] == params[i];
      init[Lower(p) := Sym(p, INT, false)]
  }

  /** Declaring the next parameter extends the procedure's table. */
  lemma ParamStep(below: seq<Table>, params: seq<string>, i: nat)
    requires i < |params| && KeysDistinct(params[..i]) && Lower(params[i]) !in ParamTable(params[..i])
    ensures Declared(below + [ParamTable(params[..i])], Sym(params[i], INT, false)) == below + [ParamTable(params[..i + 1])]
    ensures KeysDistinct(params[..i + 1])
  {
    assert params[..i + 1][..i] == params[..i];
    assert forall j | 0 <= j < i :: params[..i][j] == params[j];
  }

  /** A parameter whose name is already in the table repeats an earlier one. */
  lemma ParamClash(params: seq<string>, i: nat)
    requires i < |params| && Lower(params[i]) in ParamTable(params[..i])
    ensures !KeysDistinct(params)
  {
    var j :| 0 <= j < i && Lower(params[..i][j]) == Lower(params[i]);
    assert params[..i][j] == params[j];
  }

  class SemanticAnalyzer {
    /** name → `Symbol` or `ProcSymbol`, keyed by the lower-cased name */
    var globals: Table
    /** the local tables, innermost last */
    var scopes: seq<Table>

    constructor ()
      ensures globals == map[] && scopes == []
    {
      globals := map[];
      scopes := [];
    }

    function Lookup(name: string): Option<Symbol>
      reads this
    {
      LookupIn(scopes, globals, name)
    }

    method PushScope()
      modifies this
      ensures scopes == old(scopes) + [map[]] && globals == old(globals)
    {
      scopes := scopes + [map[]];
    }

    method PopScope()
      requires scopes != []
      modifies this
      ensures scopes == old(scopes)[..|old(scopes)| - 1] && globals == old(globals)
    {
      scopes := scopes[..|scopes| - 1];
    }

    /** `declare(sym)`: into the innermost scope, or the globals when none is open; a name already
        in that table is an error and changes nothing. */
    method Declare(sym: Symbol) returns (err: Option<Error>)
      modifies this
      ensures var key := Lower(sym.name);
              if old(scopes) == [] then
                scopes == old(scopes)
                && (err.Some? <==> key in old(globals))
                && globals == if err.None? then old(globals)[key := sym] else old(globals)
              else
                globals == old(globals)
                && (err.Some? <==> key in old(scopes)[|old(scopes)| - 1])
                && scopes == if err.None? then Declared(old(scopes), sym) else old(scopes)
      ensures err.Some? ==> err.value == Fail("repeated declaration of '" + sym.name + "'")
    {
      var key := Lower(sym.name);
      if scopes == [] {
        if key in globals {
          return Some(Fail("repeated declaration of '" + sym.name + "'"));
        }
        globals := globals[key := sym];
      } else {
        var top := scopes[|scopes| - 1];
        if key in top {
          return Some(Fail("repeated declaration of '" + sym.name + "'"));
        }
        scopes := scopes[..|scopes| - 1] + [top[key := sym]];
      }
      err := None;
    }

    /** `analyze(tree)`: phase 1 declares the globals, phase 2 visits every directive; the first
        error stops it. Started on an empty scope stack, phase 1 is `DeclareGlobals`, and phase 2
        declares no global and checks every directive against the globals phase 1 left. */
    method Analyze(p: Program) returns (err: Option<Error>)
      modifies this
      ensures old(scopes) == [] ==>
                match DeclareGlobals(old(globals), p.directives)
                case Err(e) => err == Some(e)
                case Ok(g) =>
                  globals == g
                  && (err.None? <==> forall i | 0 <= i < |p.directives| :: StmtChecks([], g, p.directives[i]))
                  && (err.None? ==> scopes == [])
    {
      ghost var g0, top := globals, scopes == [];
      var ds := p.directives;
      var i := 0;
      while i < |ds|
        invariant i <= |ds|
        invariant top ==> scopes == [] && DeclareGlobals(g0, ds) == DeclareGlobals(globals, ds[i..])
      {
        var d := ds[i];
        assert ds[i..][1..] == ds[i + 1..];
        match d {
        case VarDecl(typ, name, _) =>
          err := Declare(Sym(name, typ, false));
          if err.Some? {
            return;
          }
        case ConstDecl(ctyp, name, _) =>
          var base := if ctyp == CINT then INT else BOOLEAN;
          err := Declare(Sym(name, base, true));
          if err.Some? {
            return;
          }
        case MapDecl(name) =>
          err := Declare(Sym(name, MAP, false));
          if err.Some? {
            return;
          }
        case ProcDecl(name, params, body) =>
          globals := globals[Lower(name) := ProcSym(name, params, body)];
        case _ =>
        }
        i := i + 1;
      }
      ghost var g := globals;
      i := 0;
      while i < |ds|
        invariant i <= |ds|
        invariant globals == g
        invariant top ==> scopes == [] && forall j | 0 <= j < i :: StmtChecks([], g, ds[j])
      {
        err := VisitStmt(ds[i]);
        if err.Some? {
          return;
        }
        i := i + 1;
      }
      err := None;
    }

    /** `visit_Block`: a scope is opened for the statements and closed after them, so a block that
        passes leaves the scopes as it found them. It passes exactly when every statement in it
        passes in turn. */
    method VisitBlock(b: Block) returns (err: Option<Error>)
      modifies this
      ensures globals == old(globals)
      ensures err.None? <==> BlockChecks(old(scopes), globals, b)
      ensures err.None? ==> scopes == old(scopes)
      decreases b, 2
    {
      ghost var sc0 := scopes;
      PushScope();
      var i := 0;
      while i < |b.statements|
        invariant i <= |b.statements|
        invariant globals == old(globals)
        invariant |scopes| == |sc0| + 1 && scopes[..|sc0|] == sc0
        invariant BlockChecks(sc0, globals, b) <==> StmtsCheck(scopes, globals, b, i)
      {
        ghost var before := scopes;
        err := VisitStmt(b.statements[i]);
        if err.Some? {
          return;
        }
        assert scopes[..|sc0|] == before[..|sc0|];
        i := i + 1;
      }
      PopScope();
      err := None;
    }

    /** `visit(s)` for a statement. It never changes the globals; when it passes, the statement
        fits the tables it was checked against and the scopes are `ScopesAfter` it. For a statement
        without blocks inside, fitting is also enough to pass. */
    method VisitStmt(s: Stmt) returns (err: Option<Error>)
      modifies this
      ensures globals == old(globals)
      ensures err.None? <==> StmtChecks(old(scopes), globals, s)
      ensures err.None? ==> Fits(old(scopes), globals, s) && scopes == ScopesAfter(old(scopes), s)
      ensures Flat(s) && Fits(old(scopes), globals, s) ==> err.None?
      decreases s, 1
    {
      match s
      case VarDecl(_, _, _) =>
        err := VisitDecl(s);
      case ConstDecl(_, _, _) =>
        err := VisitDecl(s);
      case MapDecl(_) =>
        err := None;
      case ProcDecl(_, _, _) =>
        err := VisitProcDecl(s);
      case Assign(_, _) =>
        err := VisitAssign(s);
      case IfStmt(_, _, _) =>
        err := VisitBranching(s);
      case WhileStmt(_, _) =>
        err := VisitBranching(s);
      case MapOp(_, _, _, _, _) =>
        err := VisitMapOp(s);
      case PrintStmt(e) =>
        if e.Some? {
          var t := TypeOf(scopes, globals, e.value);
          if t.Err? {
            return Some(t.error);
          }
        }
        err := None;
      case ExprStmt(e) =>
        var t := TypeOf(scopes, globals, e);
        if t.Err? {
          return Some(t.error);
        }
        err := None;
    }

    /** `visit_VarDecl` and `visit_ConstDecl`: inside a scope the name is declared first, then the
        initializer is typed (so it already sees the new name) and must have the declared type. */
    method VisitDecl(s: Stmt) returns (err: Option<Error>)
      requires s.VarDecl? || s.ConstDecl?
      modifies this
      ensures globals == old(globals)
      ensures err.None? <==> Fits(old(scopes), globals, s)
      ensures err.None? ==> scopes == ScopesAfter(old(scopes), s)
    {
      var want := if s.VarDecl? then s.typ else if s.ctyp == CINT then INT else BOOLEAN;
      var sym := Sym(s.name, want, s.ConstDecl?);
      assert ScopesAfter(scopes, s) == Declared(scopes, sym);
      if scopes != [] {
        err := Declare(sym);
        if err.Some? {
          return;
        }
      }
      var t := TypeOf(scopes, globals, s.init);
      err := ExpectType(t, Some(want), "cannot assign a value of another type to " + s.name);
    }

    /** `visit_ProcDecl`: a scope holding the parameters as `INT` variables, the body's own scope
        inside it, and both closed again. */
    method VisitProcDecl(s: Stmt) returns (err: Option<Error>)
      requires s.ProcDecl?
      modifies this
      ensures globals == old(globals)
      ensures err.None? <==> KeysDistinct(s.params) && BlockChecks(old(scopes) + [ParamTable(s.params)], globals, s.body)
      ensures err.None? ==> scopes == old(scopes)
      decreases s, 0
    {
      PushScope();
      err := DeclareParams(s.params);
      if err.Some? {
        return;
      }
      err := VisitBlock(s.body);
      if err.Some? {
        return;
      }
      PopScope();
    }

    /** The parameters, all `INT` variables, go into the procedure's fresh scope; a repeated one
        is an error. */
    method DeclareParams(params: seq<string>) returns (err: Option<Error>)
      requires scopes != [] && scopes[|scopes| - 1] == map[]
      modifies this
      ensures globals == old(globals)
      ensures err.None? <==> KeysDistinct(params)
      ensures err.None? ==> scopes == old(scopes)[..|old(scopes)| - 1] + [ParamTable(params)]
    {
      ghost var below := scopes[..|scopes| - 1];
      assert scopes == below + [ParamTable(params[..0])];
      err := None;
      var i := 0;
      while i < |params|
        invariant i <= |params|
        invariant globals == old(globals)
        invariant scopes == below + [ParamTable(params[..i])]
        invariant KeysDistinct(params[..i]) && err.None?
      {
        err := Declare(Sym(params[i], INT, false));
        if err.Some? {
          ParamClash(params, i);
          return;
        }
        ParamStep(below, params, i);
        i := i + 1;
      }
      assert params[..i] == params;
    }

    /** `visit_Assign`: the name must be a declared, non-constant variable (reading `is_const` of a
        procedure fails), and the value must have its type. */
    method VisitAssign(s: Stmt) returns (err: Option<Error>)
      requires s.Assign?
      ensures err.None? <==> Fits(scopes, globals, s)
      ensures Lookup(s.name).Some? && Lookup(s.name).value.ProcSym? ==> err == Some(NoAttribute("is_const"))
    {
      var sym := Lookup(s.name);
      if sym.None? {
        return Some(Fail("variable " + s.name + " is not declared"));
      }
      if sym.value.ProcSym? {
        return Some(NoAttribute("is_const"));
      }
      if sym.value.isConst {
        return Some(Fail("cannot reassign constant " + s.name));
      }
      var t := TypeOf(scopes, globals, s.value);
      err := ExpectType(t, Some(sym.value.typ), "cannot assign a value of another type to " + s.name);
    }

    /** `visit_IfStmt` and `visit_WhileStmt`: a `BOOLEAN` condition, then the blocks. */
    method VisitBranching(s: Stmt) returns (err: Option<Error>)
      requires s.IfStmt? || s.WhileStmt?
      modifies this
      ensures globals == old(globals)
      ensures err.None? <==> StmtChecks(old(scopes), globals, s)
      ensures err.None? ==> scopes == old(scopes)
      decreases s, 0
    {
      var t := TypeOf(scopes, globals, s.cond);
      err := ExpectType(t, Some(BOOLEAN), "the condition must be BOOLEAN");
      if err.Some? {
        return;
      }
      if s.WhileStmt? {
        err := VisitBlock(s.block);
        return;
      }
      err := VisitBlock(s.thenBlock);
      if err.Some? || s.elseBlock.None? {
        return;
      }
      err := VisitBlock(s.elseBlock.value);
    }

    /** `visit_MapOp`: the result variable must be a `BOOLEAN` variable (reading `typ` of a procedure
        fails) and both coordinates `INT`. */
    method VisitMapOp(s: Stmt) returns (err: Option<Error>)
      requires s.MapOp?
      ensures err.None? <==> Fits(scopes, globals, s)
      ensures Lookup(s.resVar).Some? && Lookup(s.resVar).value.ProcSym? ==> err == Some(NoAttribute("typ"))
    {
      var sym := Lookup(s.resVar);
      if sym.None? {
        return Some(Fail("variable " + s.resVar + " must be BOOLEAN for " + s.op));
      }
      if sym.value.ProcSym? {
        return Some(NoAttribute("typ"));
      }
      if sym.value.typ != BOOLEAN {
        return Some(Fail("variable " + s.resVar + " must be BOOLEAN for " + s.op));
      }
      var tx := TypeOf(scopes, globals, s.x);
      if tx.Err? {
        return Some(tx.error);
      }
      var ty := TypeOf(scopes, globals, s.y);
      if ty.Err? {
        return Some(ty.error);
      }
      if tx.value != Some(INT) || ty.value != Some(INT) {
        return Some(Fail("MAP_OP coordinates must be INT"));
      }
      err := None;
    }

    /** A visited type compared with the one expected; a visiting error passes through. */
    static method ExpectType(t: Result<Option<Ty>>, want: Option<Ty>, msg: string) returns (err: Option<Error>)
      ensures err.None? <==> t == Ok(want)
      ensures t.Err? ==> err == Some(t.error)
    {
      if t.Err? {
        return Some(t.error);
      }
      if t.value != want {
        return Some(Fail(msg));
      }
      err := None;
    }
  }
}
