/** The typed scalar HIR and its reference meaning: strict, left to right, one environment per
    function activation. */
module Hir {
  import opened Wrappers
  import opened Floats

  datatype Type = Number | Boolean

  /** Operators of the AST enumeration; `Unsupported` stands for AST_OPERATOR_NONE. */
  datatype Operator = Arithmetic(arith: CalcOp) | Comparison(test: TestOp) | Unsupported

  datatype Expr =
    | NumberLiteral(number: Double)
    | BooleanLiteral(flag: bool)
    | Variable(variableType: Type, id: nat)
    | Binary(binaryType: Type, op: Operator, left: Expr, right: Expr)
    | Call(callType: Type, callee: nat, args: seq<Expr>)
  {
    function Type(): Type {
      match this
      case NumberLiteral(_) => Number
      case BooleanLiteral(_) => Boolean
      case Variable(ty, _) => ty
      case Binary(ty, _, _, _) => ty
      case Call(ty, _, _) => ty
    }
  }

  datatype Stmt =
    | Declare(declareType: Type, id: nat, init: Expr)
    | Assign(assignType: Type, id: nat, value: Expr)
    | Return(resultType: Type, result: Expr)
    | If(cond: Expr, thenBody: seq<Stmt>, elseBody: seq<Stmt>)

  datatype Param = Param(id: nat, ty: Type)

  datatype Function = Function(
    name: string, id: nat, params: seq<Param>, body: seq<Stmt>, returnType: Type, resolved: bool)

  datatype ScalarHir = ScalarHir(functions: seq<Function>, globals: seq<Stmt>)

  // ----- meaning -----

  datatype Value = Num(number: Double) | Bool(flag: bool) {
    function Type(): Type { if Num? then Number else Boolean }

    /** The double a register holds for this value. */
    function Repr(): Double { if Num? then number else if flag then ONE else ZERO }
  }

  type Env = map<nat, Value>

  /** `Fault`: a division by zero or a result that is not finite.  `Stuck`: the program has no
      meaning here (a variable used before its declaration, a type error, no return, an unknown
      callee, or the bound on call depth reached). */
  datatype Outcome<+T> = Done(value: T) | Fault | Stuck {
    predicate IsFailure() { !Done? }
    function PropagateFailure<U>(): Outcome<U> requires !Done? { if Fault? then Fault else Stuck }
    function Extract(): T requires Done? { value }
  }

  datatype Flow = Next(env: Env) | Returned(value: Value)

  function Calculate(fp: FloatModel, op: CalcOp, x: Double, y: Double): Outcome<Value> {
    if op == Divide && fp.isZero(y) then Fault
    else if !fp.finite(fp.arith(op, x, y)) then Fault
    else Done(Num(fp.arith(op, x, y)))
  }

  /** Numbers compare in all six ways; booleans only for being equal or not. */
  function Compare(fp: FloatModel, op: TestOp, x: Value, y: Value): Outcome<Value> {
    match (x, y)
    case (Num(a), Num(b)) => Done(Bool(fp.test(op, a, b)))
    case (Bool(a), Bool(b)) =>
      if op == Equal then Done(Bool(a == b)) else if op == NotEqual then Done(Bool(a != b)) else Stuck
    case _ => Stuck
  }

  function ApplyOperator(fp: FloatModel, op: Operator, x: Value, y: Value): Outcome<Value> {
    match op
    case Arithmetic(arith) => if x.Num? && y.Num? then Calculate(fp, arith, x.number, y.number) else Stuck
    case Comparison(test) => Compare(fp, test, x, y)
    case Unsupported => Stuck
  }

  function Lookup(fns: seq<Function>, id: nat): Option<Function> {
    if fns == [] then None
    else if fns[0].id == id then Some(fns[0])
    else Lookup(fns[1..], id)
  }

  function BindParams(params: seq<Param>, values: seq<Value>): Env
    requires |params| == |values|
  {
    if params == [] then map[]
    else
      var n := |params| - 1;
      BindParams(params[..n], values[..n])[params[n].id := values[n]]
  }

  /** `depth` bounds the number of nested calls. */
  function EvalExpr(fp: FloatModel, fns: seq<Function>, depth: nat, env: Env, e: Expr): Outcome<Value>
    decreases depth, e
  {
    match e
    case NumberLiteral(x) => Done(Num(x))
    case BooleanLiteral(b) => Done(Bool(b))
    case Variable(_, id) => if id in env then Done(env[id]) else Stuck
    case Binary(_, op, left, right) =>
      var x :- EvalExpr(fp, fns, depth, env, left);
      var y :- EvalExpr(fp, fns, depth, env, right);
      ApplyOperator(fp, op, x, y)
    case Call(_, callee, args) =>
      var values :- EvalArgs(fp, fns, depth, env, args);
      var f := Lookup(fns, callee);
      if depth == 0 || f.None? || |f.value.params| != |values| then Stuck
      else
        var flow :- ExecList(fp, fns, depth - 1, BindParams(f.value.params, values), f.value.body);
        if flow.Returned? then Done(flow.value) else Stuck
  }

  function EvalArgs(fp: FloatModel, fns: seq<Function>, depth: nat, env: Env, args: seq<Expr>)
    : (r: Outcome<seq<Value>>)
    ensures r.Done? ==> |r.value| == |args|
    decreases depth, args
  {
    if args == [] then Done([])
    else
      var v :- EvalExpr(fp, fns, depth, env, args[0]);
      var vs :- EvalArgs(fp, fns, depth, env, args[1..]);
      Done([v] + vs)
  }

  function ExecStmt(fp: FloatModel, fns: seq<Function>, depth: nat, env: Env, s: Stmt): Outcome<Flow>
    decreases depth, s
  {
    match s
    case Declare(_, id, init) =>
      var v :- EvalExpr(fp, fns, depth, env, init);
      Done(Next(env[id := v]))
    case Assign(_, id, value) =>
      var v :- EvalExpr(fp, fns, depth, env, value);
      if id in env then Done(Next(env[id := v])) else Stuck
    case Return(_, result) =>
      var v :- EvalExpr(fp, fns, depth, env, result);
      Done(Returned(v))
    case If(cond, thenBody, elseBody) =>
      var c :- EvalExpr(fp, fns, depth, env, cond);
      if !c.Bool? then Stuck
      else if c.flag then ExecList(fp, fns, depth, env, thenBody)
      else ExecList(fp, fns, depth, env, elseBody)
  }

  function ExecList(fp: FloatModel, fns: seq<Function>, depth: nat, env: Env, ss: seq<Stmt>): Outcome<Flow>
    decreases depth, ss
  {
    if ss == [] then Done(Next(env))
    else
      var flow :- ExecStmt(fp, fns, depth, env, ss[0]);
      if flow.Returned? then Done(flow) else ExecList(fp, fns, depth, flow.env, ss[1..])
  }

  function Named(fns: seq<Function>, name: string): Option<Function> {
    if fns == [] then None
    else if fns[0].name == name then Some(fns[0])
    else Named(fns[1..], name)
  }

  /** The value of a program: that of the body of `principal`, run with no arguments. */
  function EvalProgram(fp: FloatModel, hir: ScalarHir, depth: nat): Outcome<Value> {
    var f := Named(hir.functions, "principal");
    if f.None? || f.value.params != [] then Stuck
    else
      var flow :- ExecList(fp, hir.functions, depth, map[], f.value.body);
      if flow.Returned? then Done(flow.value) else Stuck
  }

  // ----- definite declaration: a variable is declared on every path to each of its uses -----

  predicate ExprDeclared(declared: set<nat>, e: Expr) {
    match e
    case NumberLiteral(_) => true
    case BooleanLiteral(_) => true
    case Variable(_, id) => id in declared
    case Binary(_, _, left, right) => ExprDeclared(declared, left) && ExprDeclared(declared, right)
    case Call(_, _, args) => forall i | 0 <= i < |args| :: ExprDeclared(declared, args[i])
  }

  /** What is certainly declared after a statement; `Ends` when no path gets there. */
  datatype After = Falls(declared: set<nat>) | Ends

  function Join(a: After, b: After): After {
    if a.Ends? then b else if b.Ends? then a else Falls(a.declared * b.declared)
  }

  function StmtDeclared(declared: set<nat>, s: Stmt): Option<After>
    decreases s
  {
    match s
    case Declare(_, id, init) =>
      if ExprDeclared(declared, init) then Some(Falls(declared + {id})) else None
    case Assign(_, id, value) =>
      if id in declared && ExprDeclared(declared, value) then Some(Falls(declared)) else None
    case Return(_, result) =>
      if ExprDeclared(declared, result) then Some(Ends) else None
    case If(cond, thenBody, elseBody) =>
      if !ExprDeclared(declared, cond) then None
      else
        var a :- ListDeclared(declared, thenBody);
        var b :- ListDeclared(declared, elseBody);
        Some(Join(a, b))
  }

  function ListDeclared(declared: set<nat>, ss: seq<Stmt>): Option<After>
    decreases ss
  {
    if ss == [] then Some(Falls(declared))
    else
      var a :- StmtDeclared(declared, ss[0]);
      if a.Ends? then Some(Ends) else ListDeclared(a.declared, ss[1..])
  }

  function ParamIds(params: seq<Param>): set<nat> {
    set i | 0 <= i < |params| :: params[i].id
  }

  /** A check on the syntax alone, one function at a time. */
  predicate DefinitelyDeclared(hir: ScalarHir) {
    forall i | 0 <= i < |hir.functions| ::
      ListDeclared(ParamIds(hir.functions[i].params), hir.functions[i].body).Some?
  }
}
