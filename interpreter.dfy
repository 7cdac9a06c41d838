/** The tree-walking interpreter of the robot language (Lab3/src/interpreter.py): a stack of
    variable frames, a stack of parameter renamings, the registered procedures, and the robot in its
    maze. */
module Interpreter {
  import opened Wrappers
  import opened Text
  import opened Semantic
  import Loader

  // ----- Values

  /** The Python values a program computes: `int`, `bool`, and the `None` of a call without a
      result parameter. */
  datatype Value = IntV(i: int) | BoolV(b: bool) | NoneV

  /** Python truthiness: `0`, `False` and `None` are false. */
  predicate Truthy(v: Value) {
    match v
    case IntV(i) => i != 0
    case BoolV(b) => b
    case NoneV => false
  }

  /** The number a value stands for in arithmetic and comparisons (`bool` is a subclass of `int`);
      `None` stands for none. */
  function Num(v: Value): Option<int> {
    match v
    case IntV(i) => Some(i)
    case BoolV(b) => Some(if b then 1 else 0)
    case NoneV => None
  }

  function TypeName(v: Value): string {
    match v
    case IntV(_) => "int"
    case BoolV(_) => "bool"
    case NoneV => "NoneType"
  }

  /** Python's `==` on these values: numbers (booleans included) by value, `None` only to itself. */
  predicate PyEq(a: Value, b: Value) {
    if Num(a).Some? && Num(b).Some? then Num(a).value == Num(b).value else a.NoneV? && b.NoneV?
  }

  /** `a + b` and `a - b`: an `int`, or a `TypeError` when an operand is `None`. */
  function Arith(sym: string, a: Value, b: Value): Result<Value> {
    if Num(a).None? || Num(b).None? then
      Err(Error(TypeError, "unsupported operand type(s) for " + sym + ": '" + TypeName(a) + "' and '" + TypeName(b) + "'"))
    else if sym == "+" then Ok(IntV(Num(a).value + Num(b).value))
    else Ok(IntV(Num(a).value - Num(b).value))
  }

  /** `a > b` and `a < b`: a `bool`, or a `TypeError` when an operand is `None`. */
  function Compare(sym: string, a: Value, b: Value): Result<Value> {
    if Num(a).None? || Num(b).None? then
      Err(Error(TypeError, "'" + sym + "' not supported between instances of '" + TypeName(a) + "' and '" + TypeName(b) + "'"))
    else if sym == ">" then Ok(BoolV(Num(a).value > Num(b).value))
    else Ok(BoolV(Num(a).value < Num(b).value))
  }

  /** `BIN_OPS[op](a, b)`, or the `RuntimeError` for an operator missing from the table. */
  function BinOp(op: string, a: Value, b: Value): Result<Value> {
    if op == "+" || op == "-" then Arith(op, a, b)
    else if op == "GT" then Compare(">", a, b)
    else if op == "LT" then Compare("<", a, b)
    else if op == "EQ" then Ok(BoolV(PyEq(a, b)))
    else if op == "OR" then Ok(if Truthy(a) then a else b)
    else Err(Error(RuntimeError, "Unsupported binary op '" + op + "'"))
  }

  /** `old + delta if op == 'INC' else old - delta` on the current value: every operator but `INC` subtracts. */
  function Bump(op: string, current: Value, delta: Value): Result<Value> {
    if op == "INC" then Arith("+", current, delta) else Arith("-", current, delta)
  }

  /** A value of a type name the checker assigns. */
  predicate HasType(v: Value, t: Ty) {
    (t == INT && v.IntV?) || (t == BOOLEAN && v.BoolV?)
  }

  /** Operands of the types the checker demands give a result of the type it assigns: the operator
      table and the typing rules agree. */
  lemma BinOpSound(op: string, a: Value, b: Value, ta: Ty, tb: Ty, t: Ty)
    requires BinaryType(op, Some(ta), Some(tb)) == Ok(Some(t)) && HasType(a, ta) && HasType(b, tb)
    ensures BinOp(op, a, b).Ok? && HasType(BinOp(op, a, b).value, t)
  {
  }

  /** `OR` is truthy exactly when an operand is, and `NOT` flips truthiness. */
  lemma OrTruth(a: Value, b: Value)
    ensures BinOp("OR", a, b).Ok? && (Truthy(BinOp("OR", a, b).value) <==> Truthy(a) || Truthy(b))
  {
  }

  /** `GT` is `LT` with the operands swapped, and `EQ` is symmetric. */
  lemma ComparisonsMirror(a: Value, b: Value)
    ensures BinOp("GT", a, b).Ok? == BinOp("LT", b, a).Ok?
    ensures BinOp("GT", a, b).Ok? ==> BinOp("GT", a, b) == BinOp("LT", b, a)
    ensures BinOp("EQ", a, b) == BinOp("EQ", b, a)
  {
  }

  /** `DEC` by the same amount undoes `INC` on an `int`, and the other way round. */
  lemma BumpInverse(v: int, delta: Value)
    requires Num(delta).Some?
    ensures Bump("INC", IntV(v), delta).Ok? && Bump("DEC", Bump("INC", IntV(v), delta).value, delta) == Ok(IntV(v))
    ensures Bump("DEC", IntV(v), delta).Ok? && Bump("INC", Bump("DEC", IntV(v), delta).value, delta) == Ok(IntV(v))
  {
  }

  // ----- Frames

  /** The innermost frame holding `name`: the frames are searched from the last one backwards, as
      `reversed(self.envs)` and `reversed(self.call_stack)` are. */
  function Innermost<T>(frames: seq<map<string, T>>, name: string): (r: Option<nat>)
    ensures r.None? <==> forall i | 0 <= i < |frames| :: name !in frames[i]
    ensures r.Some? ==> r.value < |frames| && name in frames[r.value]
                        && forall j | r.value < j < |frames| :: name !in frames[j]
  {
    if frames == [] then None
    else if name in frames[|frames| - 1] then Some(|frames| - 1)
    else Innermost(frames[..|frames| - 1], name)
  }

  /** A frame holding the name with none after it is the innermost one. */
  lemma {:induction false} InnermostIs<T>(frames: seq<map<string, T>>, name: string, i: nat)
    requires i < |frames| && name in frames[i]
    requires forall j | i < j < |frames| :: name !in frames[j]
    ensures Innermost(frames, name) == Some(i)
  {
    if i < |frames| - 1 {
      InnermostIs(frames[..|frames| - 1], name, i);
    }
  }

  /** Frames that hold the same names find the same innermost one. */
  lemma {:induction false} InnermostAgree<T>(f: seq<map<string, T>>, g: seq<map<string, T>>, name: string)
    requires |f| == |g| && forall i | 0 <= i < |f| :: (name in f[i] <==> name in g[i])
    ensures Innermost(f, name) == Innermost(g, name)
  {
    if f != [] {
      InnermostAgree(f[..|f| - 1], g[..|g| - 1], name);
    }
  }

  /** `_resolve(name)`: the innermost renaming of `name`, or `name` itself when no call renames it. */
  function Resolved(stack: seq<map<string, string>>, name: string): string {
    match Innermost(stack, name)
    case None => name
    case Some(i) => stack[i][name]
  }

  /** What `_lookup(name)` returns: the value in the innermost frame holding `name`. */
  function ValueOf(envs: seq<map<string, Value>>, name: string): Option<Value> {
    if envs == [] then None
    else if name in envs[|envs| - 1] then Some(envs[|envs| - 1][name])
    else ValueOf(envs[..|envs| - 1], name)
  }

  /** The value read is the one in the innermost frame holding the name. */
  lemma {:induction false} ValueOfInnermost(envs: seq<map<string, Value>>, name: string)
    ensures ValueOf(envs, name) == match Innermost(envs, name) case None => None case Some(i) => Some(envs[i][name])
  {
    if envs != [] && name !in envs[|envs| - 1] {
      ValueOfInnermost(envs[..|envs| - 1], name);
    }
  }

  function Undefined(name: string): Error {
    Error(RuntimeError, "Undefined var " + name)
  }

  /** The frame `_assign(name, val)` writes: the innermost one holding `name`, else the top one. */
  function Target(envs: seq<map<string, Value>>, name: string): (t: nat)
    requires |envs| > 0
    ensures t < |envs|
  {
    match Innermost(envs, name)
    case None => |envs| - 1
    case Some(i) => i
  }

  /** The frames after `_assign(name, val)`. */
  function Assigned(envs: seq<map<string, Value>>, name: string, v: Value): (r: seq<map<string, Value>>)
    requires |envs| > 0
  {
    var t := Target(envs, name);
    envs[t := envs[t][name := v]]
  }

  /** After an assignment the name reads the assigned value. */
  lemma AssignedReads(envs: seq<map<string, Value>>, name: string, v: Value)
    requires |envs| > 0
    ensures ValueOf(Assigned(envs, name, v), name) == Some(v)
  {
    var t := Target(envs, name);
    var r := Assigned(envs, name, v);
    assert forall j | t < j < |r| :: r[j] == envs[j];
    InnermostIs(r, name, t);
    ValueOfInnermost(r, name);
  }

  /** An assignment changes no other name, and keeps the number of frames. */
  lemma AssignedKeepsOthers(envs: seq<map<string, Value>>, name: string, v: Value, other: string)
    requires |envs| > 0 && other != name
    ensures |Assigned(envs, name, v)| == |envs|
    ensures ValueOf(Assigned(envs, name, v), other) == ValueOf(envs, other)
  {
    var r := Assigned(envs, name, v);
    InnermostAgree(r, envs, other);
    ValueOfInnermost(r, other);
    ValueOfInnermost(envs, other);
  }

  /** An assignment to a name no frame holds creates it in the top frame only. */
  lemma AssignedFresh(envs: seq<map<string, Value>>, name: string, v: Value)
    requires |envs| > 0 && ValueOf(envs, name).None?
    ensures Assigned(envs, name, v) == envs[..|envs| - 1] + [envs[|envs| - 1][name := v]]
  {
    ValueOfInnermost(envs, name);
  }

  /** Reading through one more frame: it decides when it holds the name. */
  lemma ValueOfPush(envs: seq<map<string, Value>>, f: map<string, Value>, name: string)
    ensures ValueOf(envs + [f], name) == if name in f then Some(f[name]) else ValueOf(envs, name)
  {
    if name !in f {
      assert (envs + [f])[..|envs|] == envs;
    }
  }

  // ----- Parameter passing

  /** The name `_call_proc` gives the copy of the first argument in a frame at depth `depth`. */
  function FreshName(formal: string, depth: nat): string {
    "_in_" + formal + "_" + NatToString(depth)
  }

  /** Where the `k`-th argument lives in the callee: the first is copied under a fresh name, the
      others are used under the caller's own names. */
  function Slot(params: seq<string>, args: seq<string>, depth: nat, k: nat): string
    requires 0 < |params| && k < |args|
  {
    if k == 0 then FreshName(params[0], depth) else args[k]
  }

  /** The renaming of formals after binding the first `n` pairs of `zip(params, args)`. */
  function Mapping(params: seq<string>, args: seq<string>, depth: nat, n: nat): map<string, string>
    requires n <= |params| && n <= |args|
  {
    if n == 0 then map[]
    else Mapping(params, args, depth, n - 1)[params[n - 1] := Slot(params, args, depth, n - 1)]
  }

  /** The callee's frame after binding the first `n` pairs: each argument is read through the
      caller's frames and the new frame as filled so far; an undefined one is a `RuntimeError`. */
  function Locals(below: seq<map<string, Value>>, params: seq<string>, args: seq<string>, depth: nat, n: nat)
    : Result<map<string, Value>>
    requires n <= |params| && n <= |args|
  {
    if n == 0 then Ok(map[])
    else
      match Locals(below, params, args, depth, n - 1)
      case Err(e) => Err(e)
      case Ok(local) =>
        match ValueOf(below + [local], args[n - 1])
        case None => Err(Undefined(args[n - 1]))
        case Some(v) => Ok(local[Slot(params, args, depth, n - 1) := v])
  }

  /** With distinct formals, the `k`-th formal is renamed to the `k`-th slot. */
  lemma {:induction false} MappingBinds(params: seq<string>, args: seq<string>, depth: nat, n: nat, k: nat)
    requires n <= |params| && n <= |args| && k < n
    requires forall i, j | 0 <= i < j < n :: params[i] != params[j]
    ensures params[k] in Mapping(params, args, depth, n)
    ensures Mapping(params, args, depth, n)[params[k]] == Slot(params, args, depth, k)
  {
    if k < n - 1 {
      MappingBinds(params, args, depth, n - 1, k);
    }
  }

  /** A formal beyond the arguments gets no renaming. */
  lemma {:induction false} MappingKeys(params: seq<string>, args: seq<string>, depth: nat, n: nat, p: string)
    requires n <= |params| && n <= |args|
    ensures p in Mapping(params, args, depth, n) <==> exists i | 0 <= i < n :: params[i] == p
  {
    if n > 0 {
      MappingKeys(params, args, depth, n - 1, p);
    }
  }

  /** Passing by reference: every later argument holds, in the new frame, the value it has in the
      caller, unless it is spelled like the fresh name. */
  lemma {:induction false} ByReference(below: seq<map<string, Value>>, params: seq<string>, args: seq<string>, depth: nat, n: nat)
    requires 0 < n <= |params| && n <= |args| && Locals(below, params, args, depth, n).Ok?
    ensures Mirrored(below, Locals(below, params, args, depth, n).value, FreshName(params[0], depth))
    ensures HoldsArgs(Locals(below, params, args, depth, n).value, args, n)
  {
    if n > 1 {
      ByReference(below, params, args, depth, n - 1);
      var local := Locals(below, params, args, depth, n - 1).value;
      var c := args[n - 1];
      var v := ValueOf(below + [local], c).value;
      assert Locals(below, params, args, depth, n).value == local[c := v];
      ValueOfPush(below, local, c);
      if c in local && c != FreshName(params[0], depth) {
        assert ValueOf(below, c) == Some(local[c]);
      }
      MirroredGrow(below, local, FreshName(params[0], depth), c, v);
      forall k | 1 <= k < n ensures args[k] in local[c := v] {
        if k < n - 1 {
          assert args[k] in local;
        }
      }
    }
  }

  /** The later arguments among the first `n` all have a place in the new frame. */
  ghost predicate HoldsArgs(local: map<string, Value>, args: seq<string>, n: nat)
    requires n <= |args|
  {
    forall k | 1 <= k < n :: args[k] in local
  }

  /** Every name of the new frame but `skip` holds the value it has in the frames below. */
  ghost predicate Mirrored(below: seq<map<string, Value>>, local: map<string, Value>, skip: string) {
    forall c | c in local && c != skip :: ValueOf(below, c) == Some(local[c])
  }

  lemma MirroredGrow(below: seq<map<string, Value>>, local: map<string, Value>, skip: string, c: string, v: Value)
    requires Mirrored(below, local, skip)
    requires c != skip ==> ValueOf(below, c) == Some(v)
    ensures Mirrored(below, local[c := v], skip)
  {
  }

  /** Passing by value: the fresh name holds the first argument's value in the caller, unless a later
      argument is spelled like it. */
  lemma {:induction false} ByValue(below: seq<map<string, Value>>, params: seq<string>, args: seq<string>, depth: nat, n: nat)
    requires 0 < n <= |params| && n <= |args| && Locals(below, params, args, depth, n).Ok?
    requires forall k | 1 <= k < n :: args[k] != FreshName(params[0], depth)
    ensures var local := Locals(below, params, args, depth, n).value;
            FreshName(params[0], depth) in local && Some(local[FreshName(params[0], depth)]) == ValueOf(below, args[0])
  {
    if n == 1 {
      ValueOfPush(below, map[], args[0]);
    } else {
      ByValue(below, params, args, depth, n - 1);
    }
  }

  // ----- Expressions without effects

  /** An expression whose evaluation reads frames only: literals, variables, binary operators and
      `NOT` over such expressions. */
  predicate Pure(e: Expr) {
    match e
    case IntLiteral(_) => true
    case BoolLiteral(_) => true
    case VarRef(_) => true
    case BinaryOp(_, l, r) => Pure(l) && Pure(r)
    case UnaryOp(op, x) => op == "NOT" && Pure(x)
    case _ => false
  }

  /** `eval_expr` on an expression without effects, given the frames and the renamings. */
  function EvalPure(envs: seq<map<string, Value>>, stack: seq<map<string, string>>, e: Expr): Result<Value>
    requires Pure(e)
  {
    match e
    case IntLiteral(v) => Ok(IntV(v))
    case BoolLiteral(b) => Ok(BoolV(b))
    case VarRef(name) =>
      (match ValueOf(envs, Resolved(stack, name))
       case None => Err(Undefined(Resolved(stack, name)))
       case Some(v) => Ok(v))
    case BinaryOp(op, l, r) =>
      (match EvalPure(envs, stack, l)
       case Err(err) => Err(err)
       case Ok(a) =>
         match EvalPure(envs, stack, r)
         case Err(err) => Err(err)
         case Ok(b) => BinOp(op, a, b))
    case UnaryOp(_, x) =>
      (match EvalPure(envs, stack, x)
       case Err(err) => Err(err)
       case Ok(v) => Ok(BoolV(!Truthy(v))))
  }

  /** The class name Python reports for a node. */
  function NodeName(e: Expr): string {
    match e
    case IntLiteral(_) => "IntLiteral"
    case BoolLiteral(_) => "BoolLiteral"
    case VarRef(_) => "VarRef"
    case BinaryOp(_, _, _) => "BinaryOp"
    case UnaryOp(_, _) => "UnaryOp"
    case ProcCall(_, _) => "ProcCall"
    case RobotOp(_) => "RobotOp"
    case IncDec(_, _, _) => "IncDec"
  }

  /** `node.name` on an argument or an `INC`/`DEC` target: only `VarRef` and `ProcCall` have one. */
  function NameOf(e: Expr): Result<string> {
    match e
    case VarRef(name) => Ok(name)
    case ProcCall(name, _) => Ok(name)
    case _ => Err(Error(AttributeError, "'" + NodeName(e) + "' object has no attribute 'name'"))
  }

  /** `exec_node` on a node with no `exec_<Type>` method. */
  function NoExec(kind: string): Error {
    Error(RuntimeError, "No exec method for node '" + kind + "'")
  }

  /** A registered procedure: its formals and its body. */
  datatype Proc = Proc(params: seq<string>, body: Block)

  /** The procedures `run` has registered after the directives `ds`: the last declaration of a name
      wins. */
  function ProcTable(ds: seq<Stmt>): map<string, Proc> {
    if ds == [] then map[]
    else
      var t := ProcTable(ds[..|ds| - 1]);
      match ds[|ds| - 1]
      case ProcDecl(name, params, body) => t[name := Proc(params, body)]
      case _ => t
  }

  /** A name is registered exactly when some directive declares it, with its last declaration. */
  lemma {:induction false} ProcTableLast(ds: seq<Stmt>, name: string)
    ensures name in ProcTable(ds) <==> exists i | 0 <= i < |ds| :: ds[i].ProcDecl? && ds[i].name == name
    ensures forall i | 0 <= i < |ds| && ds[i].ProcDecl? && ds[i].name == name
              && (forall j | i < j < |ds| :: !(ds[j].ProcDecl? && ds[j].name == name)) ::
              ProcTable(ds)[name] == Proc(ds[i].params, ds[i].body)
  {
    if ds != [] {
      var init := ds[..|ds| - 1];
      ProcTableLast(init, name);
      assert forall i | 0 <= i < |init| :: init[i] == ds[i];
    }
  }

  /** A directive `run` executes in its second pass: everything but declarations. */
  predicate Executed(d: Stmt) {
    !(d.VarDecl? || d.ConstDecl? || d.MapDecl? || d.ProcDecl?)
  }

  /** `ParseDirection(DirectionName(d).upper())`: the robot's own orientation is always a known
      direction. */
  lemma OrientationKnown(d: Loader.Direction)
    ensures Loader.ParseDirection(Upper(Loader.DirectionName(d))) == Some(d)
  {
    var n := Loader.DirectionName(d);
    assert forall i | 0 <= i < |n| :: 'A' <= n[i] <= 'Z';
    assert Upper(n) == n;
    Loader.ParseDirectionName(d);
  }

  /** `min(len(params), len(args))`: the pairs `zip` yields. */
  function Zipped(params: seq<string>, args: seq<string>): nat {
    if |params| < |args| then |params| else |args|
  }

  /** Once binding fails it stays failed. */
  lemma {:induction false} LocalsErrSticks(below: seq<map<string, Value>>, params: seq<string>, args: seq<string>, depth: nat, i: nat, n: nat)
    requires i <= n <= |params| && n <= |args| && Locals(below, params, args, depth, i).Err?
    ensures Locals(below, params, args, depth, n).Err?
  {
    if i < n {
      LocalsErrSticks(below, params, args, depth, i, n - 1);
    }
  }

  /** The bounds test `0 <= x < width and 0 <= y < height` of `bar` and `set_cell`: `None` in a
      comparison it reaches is a `TypeError`; the answer is the cell when it is inside. */
  function CellOf(width: int, height: int, xv: Value, yv: Value): (r: Result<Option<(int, int)>>)
    ensures r.Ok? && r.value.Some? ==> 0 <= r.value.value.0 < width && 0 <= r.value.value.1 < height
  {
    if Num(xv).None? then Err(Error(TypeError, "'<=' not supported between instances of 'int' and 'NoneType'"))
    else if !(0 <= Num(xv).value < width) then Ok(None)
    else if Num(yv).None? then Err(Error(TypeError, "'<=' not supported between instances of 'int' and 'NoneType'"))
    else if !(0 <= Num(yv).value < height) then Ok(None)
    else Ok(Some((Num(xv).value, Num(yv).value)))
  }

  /** The answer `exec_MapOp` stores for the cell its coordinates name (`None` outside the map):
      `bar` and `emp` of that cell, `True` for `SET` and `CLR`. */
  function MapAnswer(op: string, cell: Option<(int, int)>, grid: seq<seq<bool>>): bool
    requires cell.Some? ==> 0 <= cell.value.1 < |grid| && 0 <= cell.value.0 < |grid[cell.value.1]|
  {
    var barred := cell.None? || grid[cell.value.1][cell.value.0];
    if op == "BAR" then barred else if op == "EMP" then !barred else true
  }

  /** The obstacle grid after `exec_MapOp`: `SET` and `CLR` write the cell when it is inside the
      map, and nothing else changes. */
  function MapWrite(op: string, cell: Option<(int, int)>, grid: seq<seq<bool>>): (r: seq<seq<bool>>)
    requires cell.Some? ==> 0 <= cell.value.1 < |grid| && 0 <= cell.value.0 < |grid[cell.value.1]|
  {
    if (op == "SET" || op == "CLR") && cell.Some? then
      var (x, y) := cell.value;
      grid[y := grid[y][x := op == "SET"]]
    else grid
  }

  /** A `SET` makes its cell read as barred and a `CLR` as empty; every other cell, and the shape
      of the grid, stay as they were. */
  lemma MapWriteReads(op: string, x: int, y: int, grid: seq<seq<bool>>)
    requires op in {"SET", "CLR"} && 0 <= y < |grid| && 0 <= x < |grid[y]|
    ensures var g := MapWrite(op, Some((x, y)), grid);
            |g| == |grid| && (forall r | 0 <= r < |g| :: |g[r]| == |grid[r]|)
            && MapAnswer(if op == "SET" then "BAR" else "EMP", Some((x, y)), g)
            && forall x', y' | 0 <= y' < |grid| && 0 <= x' < |grid[y']| && (x', y') != (x, y) ::
                 g[y'][x'] == grid[y'][x']
  {
  }

  /** The initializers of the global variables and constants among `ds` have no effects. */
  predicate PureInits(ds: seq<Stmt>) {
    forall i | 0 <= i < |ds| && (ds[i].VarDecl? || ds[i].ConstDecl?) :: Pure(ds[i].init)
  }

  lemma PureInitsSuffix(ds: seq<Stmt>, k: nat)
    requires PureInits(ds) && k <= |ds|
    ensures PureInits(ds[k..])
  {
    assert forall j | 0 <= j < |ds| - k :: ds[k..][j] == ds[k + j];
  }

  /** The outermost frame after the first pass of `run` from frame `g`, when the initializers have
      no effects: each is evaluated against the globals so far and stored under its name, and the
      first failure stops the pass. */
  function PureGlobals(g: map<string, Value>, ds: seq<Stmt>): Result<map<string, Value>>
    requires PureInits(ds)
    decreases |ds|
  {
    if ds == [] then Ok(g)
    else
      PureInitsSuffix(ds, 1);
      var d := ds[0];
      if d.VarDecl? || d.ConstDecl? then
        match EvalPure([g], [], d.init)
        case Err(e) => Err(e)
        case Ok(v) => PureGlobals(g[d.name := v], ds[1..])
      else PureGlobals(g, ds[1..])
  }

  /** The names of the global variables and constants among `ds`. */
  function GlobalNames(ds: seq<Stmt>): set<string> {
    set i | 0 <= i < |ds| && (ds[i].VarDecl? || ds[i].ConstDecl?) :: ds[i].name
  }

  /** A first pass that completes defines exactly the names it started with and the globals'
      names; a global declared by a literal holds that literal unless a later one redeclares it. */
  lemma {:induction false} PureGlobalsDefine(g: map<string, Value>, ds: seq<Stmt>)
    requires PureInits(ds) && PureGlobals(g, ds).Ok?
    ensures PureGlobals(g, ds).value.Keys == g.Keys + GlobalNames(ds)
    ensures forall k | k in g && k !in GlobalNames(ds) :: PureGlobals(g, ds).value[k] == g[k]
    ensures forall i | 0 <= i < |ds| && ds[i].VarDecl? && ds[i].init.IntLiteral?
                       && ds[i].name !in GlobalNames(ds[i + 1..]) ::
              PureGlobals(g, ds).value[ds[i].name] == IntV(ds[i].init.value)
    decreases |ds|
  {
    if ds != [] {
      var d, rest := ds[0], ds[1..];
      PureInitsSuffix(ds, 1);
      var g' := if d.VarDecl? || d.ConstDecl? then g[d.name := EvalPure([g], [], d.init).value] else g;
      assert PureGlobals(g, ds) == PureGlobals(g', rest);
      PureGlobalsDefine(g', rest);
      assert GlobalNames(ds) == (if d.VarDecl? || d.ConstDecl? then {d.name} else {}) + GlobalNames(rest) by {
        forall n | n in GlobalNames(ds) ensures n in (if d.VarDecl? || d.ConstDecl? then {d.name} else {}) + GlobalNames(rest) {
          var i :| 0 <= i < |ds| && (ds[i].VarDecl? || ds[i].ConstDecl?) && ds[i].name == n;
          if i > 0 {
            assert rest[i - 1] == ds[i];
          }
        }
        forall n | n in GlobalNames(rest) ensures n in GlobalNames(ds) {
          var i :| 0 <= i < |rest| && (rest[i].VarDecl? || rest[i].ConstDecl?) && rest[i].name == n;
          assert ds[i + 1] == rest[i];
        }
      }
      forall i | 0 <= i < |ds| && ds[i].VarDecl? && ds[i].init.IntLiteral? && ds[i].name !in GlobalNames(ds[i + 1..])
        ensures PureGlobals(g, ds).value[ds[i].name] == IntV(ds[i].init.value)
      {
        if i > 0 {
          assert rest[i - 1] == ds[i] && rest[i..] == ds[i + 1..];
        } else {
          assert g'[d.name] == IntV(d.init.value);
        }
      }
    }
  }

  /** Frames only gain names: every name in a frame of `a` is still in the frame at the same depth
      of `b`. */
  ghost predicate KeysKept(a: seq<map<string, Value>>, b: seq<map<string, Value>>) {
    |a| <= |b| && forall i | 0 <= i < |a| :: a[i].Keys <= b[i].Keys
  }

  lemma KeysKeptTrans(a: seq<map<string, Value>>, b: seq<map<string, Value>>, c: seq<map<string, Value>>)
    requires KeysKept(a, b) && KeysKept(b, c)
    ensures KeysKept(a, c)
  {
  }

  /** Writing a name into the top frame keeps every name. */
  lemma KeysKeptWrite(a: seq<map<string, Value>>, b: seq<map<string, Value>>, name: string, v: Value)
    requires KeysKept(a, b) && |b| > 0
    ensures KeysKept(a, b[|b| - 1 := b[|b| - 1][name := v]])
  {
  }

  /** Popping the frame pushed on top of `a` keeps `a`'s names. */
  lemma KeysKeptPop(a: seq<map<string, Value>>, top: map<string, Value>, b: seq<map<string, Value>>)
    requires KeysKept(a + [top], b) && |b| == |a| + 1
    ensures KeysKept(a, b[..|b| - 1])
  {
    assert forall i | 0 <= i < |a| :: (a + [top])[i] == a[i];
  }

  // ----- The interpreter

  class Interpreter {
    /** `envs`: the frames, globals first. */
    var envs: seq<map<string, Value>>
    /** `procs`: the registered procedures by exact name. */
    var procs: map<string, Proc>
    /** `call_stack`: the renaming of formals of each active call. */
    var callStack: seq<map<string, string>>
    const worldMap: Loader.WorldMap
    const robot: Loader.Robot

    ghost predicate Valid()
      reads this, worldMap
    {
      |envs| > 0 && robot.world == worldMap && worldMap.Valid()
    }

    /** A fresh interpreter on a loaded maze: one empty global frame, no procedures, no calls. */
    constructor (worldMap: Loader.WorldMap, robot: Loader.Robot)
      requires robot.world == worldMap && worldMap.Valid()
      ensures Valid()
      ensures envs == [map[]] && procs == map[] && callStack == []
      ensures this.worldMap == worldMap && this.robot == robot
    {
      envs := [map[]];
      procs := map[];
      callStack := [];
      this.worldMap := worldMap;
      this.robot := robot;
    }

    /** `_resolve(name)`: the renamings are searched from the innermost call outwards. */
    method Resolve(name: string) returns (r: string)
      ensures r == Resolved(callStack, name)
    {
      var i := |callStack|;
      while i > 0
        invariant 0 <= i <= |callStack|
        invariant forall j | i <= j < |callStack| :: name !in callStack[j]
      {
        i := i - 1;
        if name in callStack[i] {
          InnermostIs(callStack, name, i);
          return callStack[i][name];
        }
      }
      return name;
    }

    /** `_lookup(name)`: the value in the innermost frame holding `name`, or a `RuntimeError`. */
    method Lookup(name: string) returns (r: Result<Value>)
      ensures r == if ValueOf(envs, name).Some? then Ok(ValueOf(envs, name).value) else Err(Undefined(name))
    {
      var i := |envs|;
      while i > 0
        invariant 0 <= i <= |envs|
        invariant forall j | i <= j < |envs| :: name !in envs[j]
      {
        i := i - 1;
        if name in envs[i] {
          InnermostIs(envs, name, i);
          ValueOfInnermost(envs, name);
          return Ok(envs[i][name]);
        }
      }
      ValueOfInnermost(envs, name);
      return Err(Undefined(name));
    }

    /** `_assign(name, val)`: overwrite the innermost frame holding `name`, else create it in the top
        frame. */
    method Assign(name: string, v: Value)
      requires |envs| > 0
      modifies this
      ensures envs == Assigned(old(envs), name, v) && KeysKept(old(envs), envs)
      ensures callStack == old(callStack) && procs == old(procs)
    {
      var i := |envs|;
      while i > 0
        invariant 0 <= i <= |envs|
        invariant forall j | i <= j < |envs| :: name !in envs[j]
      {
        i := i - 1;
        if name in envs[i] {
          InnermostIs(envs, name, i);
          envs := envs[i := envs[i][name := v]];
          return;
        }
      }
      envs := envs[|envs| - 1 := envs[|envs| - 1][name := v]];
    }
  
    /** Pushing the callee's frame and renaming is done by the caller; this binds the pairs of
        `zip(params, args)` into them, reading each argument through every frame. */
    method BindParams(params: seq<string>, args: seq<string>, ghost below: seq<map<string, Value>>,
                      ghost stackBelow: seq<map<string, string>>) returns (r: Result<()>)
      requires envs == below + [map[]] && callStack == stackBelow + [map[]]
      modifies this
      ensures procs == old(procs) && |envs| == |below| + 1 && |callStack| == |stackBelow| + 1
      ensures r.Ok? <==> Locals(below, params, args, |below| + 1, Zipped(params, args)).Ok?
      ensures r.Ok? ==> envs == below + [Locals(below, params, args, |below| + 1, Zipped(params, args)).value]
                        && callStack == stackBelow + [Mapping(params, args, |below| + 1, Zipped(params, args))]
    {
      var depth := |envs|;
      var n := Zipped(params, args);
      var i := 0;
      while i < n
        invariant i <= n && procs == old(procs)
        invariant Locals(below, params, args, depth, i).Ok?
        invariant envs == below + [Locals(below, params, args, depth, i).value]
        invariant callStack == stackBelow + [Mapping(params, args, depth, i)]
      {
        var formal, actual := params[i], args[i];
        var slot := if i == 0 then FreshName(formal, depth) else actual;
        callStack := callStack[|callStack| - 1 := callStack[|callStack| - 1][formal := slot]];
        var v := Lookup(actual);
        if v.Err? {
          LocalsErrSticks(below, params, args, depth, i + 1, n);
          return Err(v.error);
        }
        envs := envs[|envs| - 1 := envs[|envs| - 1][slot := v.value]];
        i := i + 1;
      }
      return Ok(());
    }

    /** `_call_proc(proc_decl, args)`: a new frame and renaming for the call, the body run in that
        frame, both popped again; with two or more formals the second one's value is the result and
        is written under its actual name into the caller's top frame, otherwise the result is
        `None`. */
    method CallProc(params: seq<string>, body: Block, args: seq<string>, fuel: nat)
      returns (r: Result<Value>, ghost callee: seq<map<string, Value>>)
      requires Valid()
      modifies this, worldMap, robot
      ensures Valid() && procs == old(procs)
      ensures r.Ok? ==> |envs| == |old(envs)| && callStack == old(callStack) && KeysKept(old(envs), envs)
      ensures r.Ok? && |params| < 2 ==> r.value == NoneV
      ensures r.Ok? && |params| >= 2 ==>
                var mp := Mapping(params, args, |old(envs)| + 1, Zipped(params, args));
                params[1] in mp && mp[params[1]] in envs[|envs| - 1] && envs[|envs| - 1][mp[params[1]]] == r.value
      ensures r.Ok? && |params| >= 2 ==>
                var mp := Mapping(params, args, |old(envs)| + 1, Zipped(params, args));
                |callee| == |old(envs)| + 1 && params[1] in mp && ValueOf(callee, mp[params[1]]) == Some(r.value)
      decreases fuel, body, 1
    {
      ghost var below, stackBelow := envs, callStack;
      envs := envs + [map[]];
      callStack := callStack + [map[]];
      callee := envs;
      var bound := BindParams(params, args, below, stackBelow);
      if bound.Err? {
        r := Err(bound.error);
        return;
      }
      ghost var bound' := envs;
      var ran := ExecBlock(body, false, fuel);
      callee := envs;
      if ran.Err? {
        r := Err(ran.error);
        return;
      }
      KeysKeptTrans(below + [map[]], bound', envs);
      var result := NoneV;
      var realName := "";
      if |params| >= 2 {
        var top := callStack[|callStack| - 1];
        if params[1] !in top {
          r := Err(Error(KeyError, "'" + params[1] + "'"));
          return;
        }
        realName := top[params[1]];
        var got := Lookup(realName);
        if got.Err? {
          r := Err(got.error);
          return;
        }
        result := got.value;
      }
      var frames := envs[..|envs| - 1];
      KeysKeptPop(below, map[], envs);
      if |params| >= 2 {
        KeysKeptWrite(below, frames, realName, result);
        frames := frames[|frames| - 1 := frames[|frames| - 1][realName := result]];
      }
      envs := frames;
      callStack := callStack[..|callStack| - 1];
      r := Ok(result);
    }

    /** `exec_Block(node, new_scope)`: the statements in order, the first error stopping them; with
        `new_scope` one frame is pushed before and popped after. */
    method ExecBlock(b: Block, newScope: bool, fuel: nat) returns (r: Result<()>)
      requires Valid()
      modifies this, worldMap, robot
      ensures Valid() && procs == old(procs)
      ensures r.Ok? ==> |envs| == |old(envs)| && callStack == old(callStack) && KeysKept(old(envs), envs)
      decreases fuel, b, 0
    {
      if newScope {
        envs := envs + [map[]];
      }
      var i := 0;
      while i < |b.statements|
        invariant Valid() && procs == old(procs) && callStack == old(callStack)
        invariant |envs| == |old(envs)| + (if newScope then 1 else 0) && KeysKept(old(envs), envs)
      {
        assert b.statements[i] in b.statements;
        var done := ExecStmt(b.statements[i], fuel);
        if done.Err? {
          return Err(done.error);
        }
        i := i + 1;
      }
      if newScope {
        envs := envs[..|envs| - 1];
      }
      return Ok(());
    }

    /** `exec_node(s)` for a statement. */
    method ExecStmt(s: Stmt, fuel: nat) returns (r: Result<()>)
      requires Valid()
      modifies this, worldMap, robot
      ensures Valid() && procs == old(procs)
      ensures r.Ok? ==> |envs| == |old(envs)| && callStack == old(callStack) && KeysKept(old(envs), envs)
      decreases fuel, s, 1
    {
      match s {
        case VarDecl(_, name, init) =>
          r := ExecDecl(s, fuel);
        case ConstDecl(_, name, init) =>
          r := ExecDecl(s, fuel);
        case MapDecl(_) =>
          r := Err(NoExec("MapDecl"));
        case ProcDecl(_, _, _) =>
          r := Err(NoExec("ProcDecl"));
        case Assign(_, _) =>
          r := ExecAssign(s, fuel);
        case IfStmt(cond, thenBlock, elseBlock) =>
          var c := Eval(cond, fuel);
          if c.Err? {
            return Err(c.error);
          }
          if Truthy(c.value) {
            r := ExecBlock(thenBlock, false, fuel);
          } else if elseBlock.Some? {
            r := ExecBlock(elseBlock.value, false, fuel);
          } else {
            r := Ok(());
          }
        case WhileStmt(_, _) =>
          r := ExecWhile(s, fuel);
        case MapOp(_, _, _, _, _) =>
          r := ExecMapOp(s, fuel);
        case PrintStmt(e) =>
          if e.Some? {
            var v := Eval(e.value, fuel);
            if v.Err? {
              return Err(v.error);
            }
          }
          r := Ok(());
        case ExprStmt(e) =>
          var v: Result<Value>;
          match e {
            case RobotOp(op) =>
              v := ExecRobotOp(op);
            case IncDec(_, _, _) =>
              v := Eval(e, fuel);
            case ProcCall(_, _) =>
              v := ExecProcCall(e, fuel);
            case _ =>
              return Err(NoExec(NodeName(e)));
          }
          r := if v.Err? then Err(v.error) else Ok(());
      }
    }

    /** `exec_VarDecl` and `exec_ConstDecl`: the initial value goes into the top frame. */
    method ExecDecl(s: Stmt, fuel: nat) returns (r: Result<()>)
      requires Valid() && (s.VarDecl? || s.ConstDecl?)
      modifies this, worldMap, robot
      ensures Valid() && procs == old(procs)
      ensures r.Ok? ==> |envs| == |old(envs)| && callStack == old(callStack) && KeysKept(old(envs), envs)
                        && s.name in envs[|envs| - 1]
      ensures Pure(s.init) ==>
                (r.Ok? <==> EvalPure(old(envs), old(callStack), s.init).Ok?)
                && (r.Ok? ==> var t := |envs| - 1;
                              envs == old(envs)[t := old(envs)[t][s.name := EvalPure(old(envs), old(callStack), s.init).value]])
      decreases fuel, s, 0
    {
      var v := Eval(s.init, fuel);
      if v.Err? {
        return Err(v.error);
      }
      envs := envs[|envs| - 1 := envs[|envs| - 1][s.name := v.value]];
      return Ok(());
    }

    /** `exec_Assign`: the name is resolved through the renamings, the value evaluated, and
        `_assign` stores it. */
    method ExecAssign(s: Stmt, fuel: nat) returns (r: Result<()>)
      requires Valid() && s.Assign?
      modifies this, worldMap, robot
      ensures Valid() && procs == old(procs)
      ensures r.Ok? ==> |envs| == |old(envs)| && callStack == old(callStack) && KeysKept(old(envs), envs)
      ensures r.Ok? ==> ValueOf(envs, Resolved(callStack, s.name)).Some?
      ensures Pure(s.value) ==>
                (r.Ok? <==> EvalPure(old(envs), old(callStack), s.value).Ok?)
                && (r.Ok? ==> envs == Assigned(old(envs), Resolved(old(callStack), s.name),
                                               EvalPure(old(envs), old(callStack), s.value).value))
      decreases fuel, s, 0
    {
      var name := Resolve(s.name);
      var v := Eval(s.value, fuel);
      if v.Err? {
        return Err(v.error);
      }
      ghost var before := envs;
      Assign(name, v.value);
      AssignedReads(before, name, v.value);
      return Ok(());
    }

    /** `exec_WhileStmt`: the body runs while the condition is truthy. The model gives up with
        `OutOfFuel` after `fuel` rounds. */
    method ExecWhile(s: Stmt, fuel: nat) returns (r: Result<()>)
      requires Valid() && s.WhileStmt?
      modifies this, worldMap, robot
      ensures Valid() && procs == old(procs)
      ensures r.Ok? ==> |envs| == |old(envs)| && callStack == old(callStack) && KeysKept(old(envs), envs)
      ensures r.Ok? && Pure(s.cond) ==>
                EvalPure(envs, callStack, s.cond).Ok? && !Truthy(EvalPure(envs, callStack, s.cond).value)
      ensures fuel > 0 && Pure(s.cond) ==>
                var c := EvalPure(old(envs), old(callStack), s.cond);
                c.Ok? && !Truthy(c.value) ==> r.Ok? && envs == old(envs)
      decreases fuel, s, 0
    {
      var budget := fuel;
      while budget > 0
        invariant Valid() && procs == old(procs) && |envs| == |old(envs)| && callStack == old(callStack)
        invariant KeysKept(old(envs), envs) && budget <= fuel
        invariant budget == fuel ==> envs == old(envs) && callStack == old(callStack)
        invariant budget < fuel && Pure(s.cond) ==>
                    EvalPure(old(envs), old(callStack), s.cond).Ok? && Truthy(EvalPure(old(envs), old(callStack), s.cond).value)
      {
        budget := budget - 1;
        var c := Eval(s.cond, fuel);
        if c.Err? {
          return Err(c.error);
        }
        if !Truthy(c.value) {
          return Ok(());
        }
        var done := ExecBlock(s.block, false, fuel);
        if done.Err? {
          return Err(done.error);
        }
      }
      return Err(Error(OutOfFuel, "the while loop did not finish within the fuel"));
    }

    /** `exec_MapOp`: both coordinates are evaluated, the map is read or written, and the answer
        is assigned to the result variable. */
    method ExecMapOp(s: Stmt, fuel: nat) returns (r: Result<()>)
      requires Valid() && s.MapOp?
      modifies this, worldMap, robot
      ensures Valid() && procs == old(procs)
      ensures r.Ok? ==> |envs| == |old(envs)| && callStack == old(callStack) && KeysKept(old(envs), envs)
      ensures r.Ok? ==> s.op in {"BAR", "EMP", "SET", "CLR"}
      ensures r.Ok? ==> ValueOf(envs, Resolved(callStack, s.resVar)).Some?
                        && ValueOf(envs, Resolved(callStack, s.resVar)).value.BoolV?
      ensures r.Ok? && s.op in {"SET", "CLR"} ==> ValueOf(envs, Resolved(callStack, s.resVar)) == Some(BoolV(true))
      ensures Pure(s.x) && Pure(s.y) ==>
                var xv, yv := EvalPure(old(envs), old(callStack), s.x), EvalPure(old(envs), old(callStack), s.y);
                (r.Ok? <==> xv.Ok? && yv.Ok? && s.op in {"BAR", "EMP", "SET", "CLR"}
                            && CellOf(worldMap.width, worldMap.height, xv.value, yv.value).Ok?)
                && (r.Ok? ==>
                      var cell := CellOf(worldMap.width, worldMap.height, xv.value, yv.value).value;
                      worldMap.grid == MapWrite(s.op, cell, old(worldMap.grid))
                      && envs == Assigned(old(envs), Resolved(old(callStack), s.resVar),
                                          BoolV(MapAnswer(s.op, cell, old(worldMap.grid)))))
      decreases fuel, s, 0
    {
      var xv := Eval(s.x, fuel);
      if xv.Err? {
        return Err(xv.error);
      }
      var yv := Eval(s.y, fuel);
      if yv.Err? {
        return Err(yv.error);
      }
      r := MapOpAt(s, xv.value, yv.value);
    }

    /** `exec_MapOp` once both coordinates are evaluated: an unknown operation is a
        `RuntimeError`, the bounds test may fail, and otherwise the map is read or written and the
        answer assigned to the result variable. */
    method MapOpAt(s: Stmt, xv: Value, yv: Value) returns (r: Result<()>)
      requires Valid() && s.MapOp?
      modifies this, worldMap
      ensures Valid() && procs == old(procs) && callStack == old(callStack)
      ensures r.Ok? <==> s.op in {"BAR", "EMP", "SET", "CLR"} && CellOf(worldMap.width, worldMap.height, xv, yv).Ok?
      ensures r.Ok? ==>
                var cell := CellOf(worldMap.width, worldMap.height, xv, yv).value;
                var answer := BoolV(MapAnswer(s.op, cell, old(worldMap.grid)));
                worldMap.grid == MapWrite(s.op, cell, old(worldMap.grid))
                && envs == Assigned(old(envs), Resolved(callStack, s.resVar), answer)
                && ValueOf(envs, Resolved(callStack, s.resVar)) == Some(answer)
                && |envs| == |old(envs)| && KeysKept(old(envs), envs)
    {
      if !(s.op == "BAR" || s.op == "EMP" || s.op == "SET" || s.op == "CLR") {
        return Err(Error(RuntimeError, "Unknown MapOp " + s.op));
      }
      var cell := CellOf(worldMap.width, worldMap.height, xv, yv);
      if cell.Err? {
        return Err(cell.error);
      }
      var res := MapCell(s.op, cell.value);
      var target := Resolve(s.resVar);
      ghost var before := envs;
      Assign(target, BoolV(res));
      AssignedReads(before, target, BoolV(res));
      return Ok(());
    }

    /** The map operation itself on the cell the coordinates name (`None` outside the map): `bar`,
        `emp`, `set_cell(x, y, True)` or `clr`, with the answer `exec_MapOp` stores. */
    method MapCell(op: string, cell: Option<(int, int)>) returns (res: bool)
      requires Valid() && op in {"BAR", "EMP", "SET", "CLR"}
      requires cell.Some? ==> worldMap.InBounds(cell.value.0, cell.value.1)
      modifies worldMap
      ensures Valid()
      ensures worldMap.grid == MapWrite(op, cell, old(worldMap.grid))
      ensures res == MapAnswer(op, cell, old(worldMap.grid))
    {
      res := true;
      if op == "BAR" || op == "EMP" {
        var barred := cell.None? || worldMap.Bar(cell.value.0, cell.value.1);
        res := if op == "BAR" then barred else !barred;
      } else if cell.Some? {
        var (x, y) := cell.value;
        if op == "SET" {
          worldMap.SetCell(x, y, true);
        } else {
          worldMap.Clr(x, y);
        }
      }
    }

    /** `exec_RobotOp(op)`: `STEP` moves along the current orientation, the turns turn, `LOOK`
        counts the free cells ahead; any other name is a `RuntimeError`. */
    method ExecRobotOp(op: string) returns (r: Result<Value>)
      requires Valid()
      modifies robot
      ensures Valid()
      ensures !(op in {"STEP", "BACK", "RIGHT", "LEFT", "LOOK"}) ==> r.Err? && r.error.kind == RuntimeError && unchanged(robot)
      ensures op == "STEP" ==>
                var d := old(robot.orientation);
                var (nx, ny) := (old(robot.x) + Loader.Delta(d).0, old(robot.y) + Loader.Delta(d).1);
                r == Ok(BoolV(!worldMap.Bar(nx, ny))) && robot.orientation == d
                && (robot.x, robot.y) == if r.value.b then (nx, ny) else (old(robot.x), old(robot.y))
      ensures op == "BACK" ==> r == Ok(BoolV(true)) && robot.orientation == Loader.BackTurn(old(robot.orientation))
      ensures op == "RIGHT" ==> r == Ok(BoolV(true)) && robot.orientation == Loader.RightTurn(old(robot.orientation))
      ensures op == "LEFT" ==> r == Ok(BoolV(true)) && robot.orientation == Loader.LeftTurn(old(robot.orientation))
      ensures op in {"BACK", "RIGHT", "LEFT", "LOOK"} ==> robot.x == old(robot.x) && robot.y == old(robot.y)
      ensures op == "LOOK" ==>
                unchanged(robot) && r.Ok? && r.value.IntV? && r.value.i >= 0
                && (forall k | 1 <= k <= r.value.i ::
                      var (cx, cy) := Loader.Ahead(robot.x, robot.y, robot.orientation, k); robot.Free(cx, cy))
                && var (cx, cy) := Loader.Ahead(robot.x, robot.y, robot.orientation, r.value.i + 1); !robot.Free(cx, cy)
    {
      if op == "STEP" {
        OrientationKnown(robot.orientation);
        var moved := robot.Step(Loader.DirectionName(robot.orientation));
        return Ok(BoolV(moved.value));
      } else if op == "BACK" {
        var b := robot.Back();
        return Ok(BoolV(b));
      } else if op == "RIGHT" {
        var b := robot.Right();
        return Ok(BoolV(b));
      } else if op == "LEFT" {
        var b := robot.Left();
        return Ok(BoolV(b));
      } else if op == "LOOK" {
        var count := robot.Look();
        return Ok(IntV(count));
      }
      return Err(Error(RuntimeError, "Unknown RobotOp '" + op + "'"));
    }

    /** `[self._resolve(arg.name) for arg in node.args]`: the caller's names of the arguments. */
    method ResolveArgs(args: seq<Expr>) returns (r: Result<seq<string>>)
      ensures r.Ok? <==> forall i | 0 <= i < |args| :: NameOf(args[i]).Ok?
      ensures r.Ok? ==> |r.value| == |args|
                        && forall i | 0 <= i < |args| :: r.value[i] == Resolved(callStack, NameOf(args[i]).value)
    {
      var names: seq<string> := [];
      var i := 0;
      while i < |args|
        invariant i <= |args| && |names| == i
        invariant forall j | 0 <= j < i :: NameOf(args[j]).Ok? && names[j] == Resolved(callStack, NameOf(args[j]).value)
      {
        var name := NameOf(args[i]);
        if name.Err? {
          return Err(name.error);
        }
        var actual := Resolve(name.value);
        names := names + [actual];
        i := i + 1;
      }
      return Ok(names);
    }

    /** `exec_ProcCall(node)`: the procedure registered under the exact name, called with the
        caller's names of the arguments. */
    method ExecProcCall(call: Expr, fuel: nat) returns (r: Result<Value>)
      requires Valid() && call.ProcCall?
      modifies this, worldMap, robot
      ensures Valid() && procs == old(procs)
      ensures r.Ok? ==> |envs| == |old(envs)| && callStack == old(callStack) && KeysKept(old(envs), envs)
      ensures call.name !in procs ==> r.Err? && r.error.kind == RuntimeError
      ensures r.Ok? ==> call.name in procs && forall i | 0 <= i < |call.args| :: NameOf(call.args[i]).Ok?
      decreases fuel, call, 0
    {
      if call.name !in procs {
        return Err(Error(RuntimeError, "Procedure " + call.name + " is not declared"));
      }
      var proc := procs[call.name];
      var names := ResolveArgs(call.args);
      if names.Err? {
        return Err(names.error);
      }
      if fuel == 0 {
        return Err(Error(OutOfFuel, "the call nesting exceeds the fuel"));
      }
      ghost var callee;
      r, callee := CallProc(proc.params, proc.body, names.value, fuel - 1);
    }

    /** `eval_expr(node)`. Expressions without effects evaluate as `EvalPure` says and change
        nothing. */
    method Eval(e: Expr, fuel: nat) returns (r: Result<Value>)
      requires Valid()
      modifies this, worldMap, robot
      ensures Valid() && procs == old(procs)
      ensures r.Ok? ==> |envs| == |old(envs)| && callStack == old(callStack) && KeysKept(old(envs), envs)
      ensures Pure(e) ==> r == EvalPure(old(envs), old(callStack), e) && envs == old(envs)
                          && callStack == old(callStack) && unchanged(robot) && unchanged(worldMap)
      decreases fuel, e, 1
    {
      match e {
        case RobotOp(op) =>
          if op == "LOOK" {
            r := ExecRobotOp(op);
          } else {
            r := Err(Error(RuntimeError, "Cannot eval RobotOp"));
          }
        case IntLiteral(v) =>
          r := Ok(IntV(v));
        case BoolLiteral(b) =>
          r := Ok(BoolV(b));
        case VarRef(name) =>
          var actual := Resolve(name);
          r := Lookup(actual);
        case IncDec(_, _, _) =>
          r := EvalIncDec(e, fuel);
        case BinaryOp(op, left, right) =>
          var a := Eval(left, fuel);
          if a.Err? {
            return Err(a.error);
          }
          var b := Eval(right, fuel);
          if b.Err? {
            return Err(b.error);
          }
          r := BinOp(op, a.value, b.value);
        case UnaryOp(op, operand) =>
          if op == "NOT" {
            var v := Eval(operand, fuel);
            if v.Err? {
              return Err(v.error);
            }
            r := Ok(BoolV(!Truthy(v.value)));
          } else {
            r := Err(Error(RuntimeError, "Cannot eval UnaryOp"));
          }
        case ProcCall(_, _) =>
          r := ExecProcCall(e, fuel);
      }
    }

    /** `INC`/`DEC` in `eval_expr`: the target's value is read, the amount evaluated, and the new
        value stored back and returned. */
    method EvalIncDec(e: Expr, fuel: nat) returns (r: Result<Value>)
      requires Valid() && e.IncDec?
      modifies this, worldMap, robot
      ensures Valid() && procs == old(procs)
      ensures r.Ok? ==> |envs| == |old(envs)| && callStack == old(callStack) && KeysKept(old(envs), envs)
      ensures r.Ok? ==> NameOf(e.target).Ok? && r.value.IntV?
                        && ValueOf(envs, Resolved(callStack, NameOf(e.target).value)) == Some(r.value)
      ensures r.Ok? && Pure(e.amount) ==>
                var name := Resolved(old(callStack), NameOf(e.target).value);
                ValueOf(old(envs), name).Some? && EvalPure(old(envs), old(callStack), e.amount).Ok?
                && Bump(e.op, ValueOf(old(envs), name).value, EvalPure(old(envs), old(callStack), e.amount).value) == Ok(r.value)
      decreases fuel, e, 0
    {
      var target := NameOf(e.target);
      if target.Err? {
        return Err(target.error);
      }
      var name := Resolve(target.value);
      var current := Lookup(name);
      if current.Err? {
        return Err(current.error);
      }
      var delta := Eval(e.amount, fuel);
      if delta.Err? {
        return Err(delta.error);
      }
      var bumped := Bump(e.op, current.value, delta.value);
      if bumped.Err? {
        return Err(bumped.error);
      }
      ghost var before := envs;
      Assign(name, bumped.value);
      AssignedReads(before, name, bumped.value);
      return Ok(bumped.value);
    }

    /** `run(tree)` once the maze is loaded: the first pass registers every procedure and
        evaluates the global variables and constants in order, the second executes every other
        directive in order. With initializers free of effects the first pass fails as `PureGlobals`
        does, and a program made of declarations only ends with the globals `PureGlobals` gives. */
    method Run(prog: Program, fuel: nat) returns (r: Result<()>)
      requires Valid() && envs == [map[]] && callStack == [] && procs == map[]
      modifies this, worldMap, robot
      ensures Valid()
      ensures r.Ok? ==> |envs| == 1 && callStack == [] && procs == ProcTable(prog.directives)
                        && forall i | 0 <= i < |prog.directives| && (prog.directives[i].VarDecl? || prog.directives[i].ConstDecl?) ::
                             prog.directives[i].name in envs[0]
      ensures PureInits(prog.directives) && PureGlobals(map[], prog.directives).Err? ==>
                r == Err(PureGlobals(map[], prog.directives).error)
      ensures PureInits(prog.directives) && (forall i | 0 <= i < |prog.directives| :: !Executed(prog.directives[i])) ==>
                (r.Ok? <==> PureGlobals(map[], prog.directives).Ok?)
                && (r.Ok? ==> envs == [PureGlobals(map[], prog.directives).value])
    {
      r := Declarations(prog.directives, fuel);
      if r.Err? {
        return r;
      }
      ghost var declared := envs;
      r := Directives(prog.directives, fuel);
    }

    /** The first pass of `run`: procedures are registered, globals evaluated into the outermost
        frame, which then holds every global's name. With initializers free of effects the frame
        ends as `PureGlobals` says. */
    method Declarations(ds: seq<Stmt>, fuel: nat) returns (r: Result<()>)
      requires Valid() && |envs| == 1 && callStack == [] && procs == map[]
      modifies this, worldMap, robot
      ensures Valid()
      ensures r.Ok? ==> |envs| == 1 && callStack == [] && procs == ProcTable(ds) && KeysKept(old(envs), envs)
                        && forall i | 0 <= i < |ds| && (ds[i].VarDecl? || ds[i].ConstDecl?) :: ds[i].name in envs[0]
      ensures PureInits(ds) ==>
                match PureGlobals(old(envs)[0], ds)
                case Ok(g) => r.Ok? && envs == [g]
                case Err(e) => r == Err(e)
    {
      var i := 0;
      while i < |ds|
        invariant i <= |ds| && Valid() && |envs| == 1 && callStack == [] && procs == ProcTable(ds[..i])
        invariant KeysKept(old(envs), envs)
        invariant forall j | 0 <= j < i && (ds[j].VarDecl? || ds[j].ConstDecl?) :: ds[j].name in envs[0]
        invariant PureInits(ds) ==> PureInits(ds[i..]) && PureGlobals(old(envs)[0], ds) == PureGlobals(envs[0], ds[i..])
      {
        assert ds[..i + 1][..i] == ds[..i];
        ghost var here := envs;
        assert here == [here[0]];
        if PureInits(ds) {
          PureInitsSuffix(ds, i + 1);
          assert ds[i..][0] == ds[i] && ds[i..][1..] == ds[i + 1..];
        }
        var d := ds[i];
        if d.ProcDecl? {
          procs := procs[d.name := Proc(d.params, d.body)];
        } else if d.VarDecl? || d.ConstDecl? {
          var v := Eval(d.init, fuel);
          if v.Err? {
            return Err(v.error);
          }
          KeysKeptWrite(old(envs), envs, d.name, v.value);
          envs := envs[0 := envs[0][d.name := v.value]];
        }
        i := i + 1;
      }
      assert ds[..i] == ds;
      return Ok(());
    }

    /** The second pass of `run`: every directive that is not a declaration is executed, in
        order, the first error stopping the run; declarations are skipped and change nothing. */
    method Directives(ds: seq<Stmt>, fuel: nat) returns (r: Result<()>)
      requires Valid() && |envs| == 1 && callStack == []
      modifies this, worldMap, robot
      ensures Valid() && procs == old(procs)
      ensures r.Ok? ==> |envs| == 1 && callStack == [] && KeysKept(old(envs), envs)
      ensures (forall i | 0 <= i < |ds| :: !Executed(ds[i])) ==> r.Ok? && envs == old(envs)
    {
      var i := 0;
      while i < |ds|
        invariant i <= |ds| && Valid() && |envs| == 1 && callStack == [] && procs == old(procs)
        invariant KeysKept(old(envs), envs)
        invariant (forall j | 0 <= j < |ds| :: !Executed(ds[j])) ==> envs == old(envs)
      {
        if Executed(ds[i]) {
          var done := ExecStmt(ds[i], fuel);
          if done.Err? {
            return Err(done.error);
          }
        }
        i := i + 1;
      }
      return Ok(());
    }
  }
}
