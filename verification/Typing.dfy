/** Which programs compile: a typing judgement on the source and counts of what the code will need, against the
    compiler that checks types while it emits code. */
module Typing {
  import opened Wrappers
  import opened Floats
  import opened Hir
  import opened Bytecode
  import opened Lowering
  import opened LoweringFacts

  // ----- the judgement -----

  /** Each operator with the types of its operands and of its result. */
  const OPERATORS: set<(Operator, Type, Type, Type)> := {
    (Arithmetic(Add), Number, Number, Number), (Arithmetic(Subtract), Number, Number, Number),
    (Arithmetic(Multiply), Number, Number, Number), (Arithmetic(Divide), Number, Number, Number),
    (Comparison(Equal), Number, Number, Boolean), (Comparison(NotEqual), Number, Number, Boolean),
    (Comparison(Less), Number, Number, Boolean), (Comparison(LessEqual), Number, Number, Boolean),
    (Comparison(Greater), Number, Number, Boolean), (Comparison(GreaterEqual), Number, Number, Boolean),
    (Comparison(Equal), Boolean, Boolean, Boolean), (Comparison(NotEqual), Boolean, Boolean, Boolean)
  }

  /** The arguments are those the function asks for, and it gives the type wanted. */
  predicate Applies(f: Function, callee: nat, ty: Type, args: seq<Expr>) {
    && f.id == callee && f.returnType == ty && |args| == |f.params|
    && forall k | 0 <= k < |args| :: args[k].Type() == f.params[k].ty
  }

  /** The expression has the type written on it, given the functions and the variables bound so far. */
  ghost predicate ExprTyped(fp: FloatModel, sigs: set<Function>, env: seq<Param>, e: Expr) {
    match e
    case NumberLiteral(x) => fp.finite(x)
    case BooleanLiteral(_) => true
    case Variable(ty, id) => id != 0 && Param(id, ty) in env
    case Binary(ty, op, left, right) =>
      && (op, left.Type(), right.Type(), ty) in OPERATORS
      && ExprTyped(fp, sigs, env, left) && ExprTyped(fp, sigs, env, right)
    case Call(ty, callee, args) =>
      && (exists f :: f in sigs && Applies(f, callee, ty, args))
      && forall k | 0 <= k < |args| :: ExprTyped(fp, sigs, env, args[k])
  }

  /** The variables that a statement declares, in order. */
  function Declared(s: Stmt): seq<Param>
    decreases s
  {
    match s
    case Declare(ty, id, _) => [Param(id, ty)]
    case If(_, thenBody, elseBody) => DeclaredIn(thenBody) + DeclaredIn(elseBody)
    case _ => []
  }

  function DeclaredIn(ss: seq<Stmt>): seq<Param>
    decreases ss
  {
    if ss == [] then [] else Declared(ss[0]) + DeclaredIn(ss[1..])
  }

  predicate BoundIn(env: seq<Param>, id: nat) { exists i :: 0 <= i < |env| && env[i].id == id }

  /** Every path through the statement ends in a return. */
  predicate AlwaysReturns(s: Stmt)
    decreases s
  {
    s.Return? || (s.If? && s.elseBody != [] && ListReturns(s.thenBody) && ListReturns(s.elseBody))
  }

  predicate ListReturns(ss: seq<Stmt>)
    decreases ss
  {
    ss != [] && AlwaysReturns(ss[|ss| - 1])
  }

  /** Variables are declared once in a function, and visible from their declaration on, also inside its initializer. */
  ghost predicate StmtTyped(fp: FloatModel, sigs: set<Function>, ret: Type, env: seq<Param>, s: Stmt)
    decreases s
  {
    match s
    case Declare(ty, id, init) =>
      id != 0 && !BoundIn(env, id) && init.Type() == ty && ExprTyped(fp, sigs, env + [Param(id, ty)], init)
    case Assign(ty, id, value) =>
      id != 0 && Param(id, ty) in env && value.Type() == ty && ExprTyped(fp, sigs, env, value)
    case Return(ty, result) => ty == ret && result.Type() == ty && ExprTyped(fp, sigs, env, result)
    case If(cond, thenBody, elseBody) =>
      && cond.Type() == Boolean && ExprTyped(fp, sigs, env, cond)
      && ListTyped(fp, sigs, ret, env, thenBody) && ListTyped(fp, sigs, ret, env + DeclaredIn(thenBody), elseBody)
  }

  /** Nothing stands behind a statement that always returns. */
  ghost predicate ListTyped(fp: FloatModel, sigs: set<Function>, ret: Type, env: seq<Param>, ss: seq<Stmt>)
    decreases ss
  {
    ss != [] ==>
      && StmtTyped(fp, sigs, ret, env, ss[0]) && (|ss| > 1 ==> !AlwaysReturns(ss[0]))
      && ListTyped(fp, sigs, ret, env + Declared(ss[0]), ss[1..])
  }

  ghost predicate FunctionTyped(fp: FloatModel, sigs: set<Function>, f: Function) {
    && (forall i | 0 <= i < |f.params| :: f.params[i].id != 0)
    && (forall i, j | 0 <= i < j < |f.params| :: f.params[i].id != f.params[j].id)
    && ListTyped(fp, sigs, f.returnType, f.params, f.body) && ListReturns(f.body)
  }

  // ----- what the code will need -----

  /** Registers of an expression; it takes as many instructions. */
  function Cost(e: Expr): nat {
    match e
    case NumberLiteral(_) => 1
    case BooleanLiteral(_) => 1
    case Variable(_, _) => 0
    case Binary(_, _, left, right) => Cost(left) + Cost(right) + 1
    case Call(_, _, args) => ArgsCost(args) + |args| + 1
  }

  function ArgsCost(args: seq<Expr>): nat { if args == [] then 0 else Cost(args[0]) + ArgsCost(args[1..]) }

  function StmtRegisters(s: Stmt): nat
    decreases s
  {
    match s
    case Declare(_, _, init) => 1 + Cost(init)
    case Assign(_, _, value) => Cost(value)
    case Return(_, result) => Cost(result)
    case If(cond, thenBody, elseBody) => Cost(cond) + ListRegisters(thenBody) + ListRegisters(elseBody)
  }

  function ListRegisters(ss: seq<Stmt>): nat
    decreases ss
  {
    if ss == [] then 0 else StmtRegisters(ss[0]) + ListRegisters(ss[1..])
  }

  /** A branch for the condition, and one over the other branch where the first one comes to its end. */
  function StmtInstructions(s: Stmt): nat
    decreases s
  {
    match s
    case Declare(_, _, init) => Cost(init) + 1
    case Assign(_, _, value) => Cost(value) + 1
    case Return(_, result) => Cost(result) + 1
    case If(cond, thenBody, elseBody) =>
      Cost(cond) + 1 + ListInstructions(thenBody) + ListInstructions(elseBody)
      + if elseBody != [] && !ListReturns(thenBody) then 1 else 0
  }

  function ListInstructions(ss: seq<Stmt>): nat
    decreases ss
  {
    if ss == [] then 0 else StmtInstructions(ss[0]) + ListInstructions(ss[1..])
  }

  function Larger(a: nat, b: nat): nat { if a < b then b else a }

  /** How deep an expression is nested. */
  function Height(e: Expr): nat {
    match e
    case Binary(_, _, left, right) => 1 + Larger(Height(left), Height(right))
    case Call(_, _, args) => ArgsHeight(args)
    case _ => 0
  }

  function ArgsHeight(args: seq<Expr>): nat {
    if args == [] then 0 else Larger(1 + Height(args[0]), ArgsHeight(args[1..]))
  }

  /** How deep statements and the expressions in them are nested. */
  function Nesting(s: Stmt): nat
    decreases s
  {
    match s
    case Declare(_, _, init) => 1 + Height(init)
    case Assign(_, _, value) => 1 + Height(value)
    case Return(_, result) => 1 + Height(result)
    case If(cond, thenBody, elseBody) => 1 + Larger(Height(cond), Larger(ListNesting(thenBody), ListNesting(elseBody)))
  }

  function ListNesting(ss: seq<Stmt>): nat
    decreases ss
  {
    if ss == [] then 0 else Larger(Nesting(ss[0]), ListNesting(ss[1..]))
  }

  // ----- the judgement and the lowering: expressions -----

  /** The variables bound in a draft. */
  function EnvOf(locals: seq<Local>): seq<Param> {
    seq(|locals|, i requires 0 <= i < |locals| => Param(locals[i].id, locals[i].ty))
  }

  /** Signatures as the compiler requires them. */
  ghost predicate Signatures(fns: seq<Function>) {
    && |fns| <= MAX_FUNCTIONS
    && (forall i | 0 <= i < |fns| :: fns[i].id != 0 && fns[i].resolved)
    && forall i, j | 0 <= i < j < |fns| :: fns[i].id != fns[j].id
  }

  function FunctionSet(fns: seq<Function>): set<Function> { set f | f in fns }

  /** A draft in which these variables are bound. */
  ghost predicate Open(s: Draft, env: seq<Param>) {
    && |s.code| <= MAX_INSTRUCTIONS && |s.types| <= MAX_REGISTERS && |s.locals| <= |s.types|
    && env == EnvOf(s.locals)
    && (forall i | 0 <= i < |s.locals| :: s.locals[i].id != 0)
    && forall i, j | 0 <= i < j < |s.locals| :: s.locals[i].id != s.locals[j].id
  }

  lemma {:induction false} FoundIff(s: Draft, env: seq<Param>, id: nat)
    requires Open(s, env)
    ensures FindLocal(s.locals, id).Some? <==> id != 0 && BoundIn(env, id)
    ensures FindLocal(s.locals, id).Some? ==>
              forall ty :: Param(id, ty) in env <==> FindLocal(s.locals, id).value.ty == ty
    ensures FindLocal(s.locals, id).None? && id != 0 ==> forall ty :: Param(id, ty) !in env
  {
    FindLocalCorrect(s.locals, id);
    if FindLocal(s.locals, id).Some? {
      var i :| 0 <= i < |s.locals| && s.locals[i] == FindLocal(s.locals, id).value && s.locals[i].id == id;
      assert env[i] == Param(id, s.locals[i].ty);
      forall ty
        ensures Param(id, ty) in env <==> FindLocal(s.locals, id).value.ty == ty
      {
        if k :| 0 <= k < |env| && env[k] == Param(id, ty) { assert k == i; }
      }
      assert id != 0 by { ZeroUnbound(s.locals); }
    } else if id != 0 {
      forall i | 0 <= i < |env|
        ensures env[i].id != id
      {
        assert env[i].id == s.locals[i].id;
      }
    }
  }

  lemma {:induction false} ZeroUnbound(locals: seq<Local>)
    ensures FindLocal(locals, 0).None?
  {
  }

  /** There is room for so many registers and instructions. */
  predicate Room(s: Draft, registers: nat, instructions: nat) {
    |s.types| + registers <= MAX_REGISTERS && |s.code| + instructions <= MAX_INSTRUCTIONS
  }

  /** The draft has grown by so much, and binds the same variables. */
  predicate Grown(s: Draft, t: Draft, registers: nat, instructions: nat) {
    && |t.types| == |s.types| + registers && |t.code| == |s.code| + instructions && t.locals == s.locals
    && s.code <= t.code
  }

  lemma {:induction false} OperatorsIff(ty: Type, op: Operator, left: Type, right: Type)
    ensures BinaryTypes(ty, op, left, right) <==> (op, left, right, ty) in OPERATORS
  {
    assert (ty == Number || ty == Boolean) && (left == Number || left == Boolean) && (right == Number || right == Boolean);
    match op
    case Arithmetic(arith) =>
      assert arith == Add || arith == Subtract || arith == Multiply || arith == Divide;
      assert (op, left, right, ty) in OPERATORS <==> (op, left, right, ty) == (op, Number, Number, Number);
    case Comparison(test) =>
      assert test == Equal || test == NotEqual || test == Less || test == LessEqual || test == Greater || test == GreaterEqual;
    case Unsupported =>
  }

  /** Exactly well typed expressions that are not too deep, and for which there is room, are lowered. */
  lemma {:induction false} ExprLowers(fp: FloatModel, fns: seq<Function>, s: Draft, env: seq<Param>, e: Expr, depth: nat)
    requires Signatures(fns) && Open(s, env)
    ensures LowerExpr(fp, fns, s, e, depth).Some? <==>
              ExprTyped(fp, FunctionSet(fns), env, e) && depth + Height(e) <= MAX_DEPTH && Room(s, Cost(e), Cost(e))
    ensures LowerExpr(fp, fns, s, e, depth).Some? ==> Grown(s, LowerExpr(fp, fns, s, e, depth).value.draft, Cost(e), Cost(e))
    decreases e, 1
  {
    match e
    case NumberLiteral(_) =>
    case BooleanLiteral(_) =>
    case Variable(ty, id) => FoundIff(s, env, id);
    case Binary(ty, op, left, right) => BinaryLowers(fp, fns, s, env, e, depth);
    case Call(ty, callee, args) => CallLowers(fp, fns, s, env, e, depth);
  }

  lemma {:induction false} BinaryLowers(fp: FloatModel, fns: seq<Function>, s: Draft, env: seq<Param>, e: Expr, depth: nat)
    requires Signatures(fns) && Open(s, env) && e.Binary?
    ensures LowerExpr(fp, fns, s, e, depth).Some? <==>
              ExprTyped(fp, FunctionSet(fns), env, e) && depth + Height(e) <= MAX_DEPTH && Room(s, Cost(e), Cost(e))
    ensures LowerExpr(fp, fns, s, e, depth).Some? ==> Grown(s, LowerExpr(fp, fns, s, e, depth).value.draft, Cost(e), Cost(e))
    decreases e, 0
  {
    OperatorsIff(e.binaryType, e.op, e.left.Type(), e.right.Type());
    ExprLowers(fp, fns, s, env, e.left, depth + 1);
    var x := LowerExpr(fp, fns, s, e.left, depth + 1);
    if x.Some? { ExprLowers(fp, fns, x.value.draft, env, e.right, depth + 1); }
  }

  lemma {:induction false} CallLowers(fp: FloatModel, fns: seq<Function>, s: Draft, env: seq<Param>, e: Expr, depth: nat)
    requires Signatures(fns) && Open(s, env) && e.Call?
    ensures LowerExpr(fp, fns, s, e, depth).Some? <==>
              ExprTyped(fp, FunctionSet(fns), env, e) && depth + Height(e) <= MAX_DEPTH && Room(s, Cost(e), Cost(e))
    ensures LowerExpr(fp, fns, s, e, depth).Some? ==> Grown(s, LowerExpr(fp, fns, s, e, depth).value.draft, Cost(e), Cost(e))
    decreases e, 0
  {
    IndexIff(fns, e.callee);
    var g := FunctionIndex(fns, e.callee);
    if g.Some? {
      var f := fns[g.value];
      AppliesIff(fns, g.value, e.callType, e.args);
      if f.returnType == e.callType && |f.params| == |e.args| {
        ArgsLower(fp, fns, s, env, e.args, f.params, depth + 1);
        var xs := LowerArgs(fp, fns, s, e.args, f.params, depth + 1);
        if xs.Some? { MovesFit(xs.value.draft, f.params, xs.value.regs); }
      }
    } else {
      NoneApplies(fns, e.callee, e.callType, e.args);
    }
  }

  lemma {:induction false} IndexIff(fns: seq<Function>, id: nat)
    requires Signatures(fns)
    ensures FunctionIndex(fns, id).Some? ==> FunctionIndex(fns, id).value < |fns| && fns[FunctionIndex(fns, id).value].id == id
    ensures FunctionIndex(fns, id).None? ==> forall i | 0 <= i < |fns| :: fns[i].id != id
  {
    IndexFromIff(fns, id, 0);
  }

  lemma {:induction false} IndexFromIff(fns: seq<Function>, id: nat, from: nat)
    ensures IndexFrom(fns, id, from).Some? ==>
              IndexFrom(fns, id, from).value < |fns| && fns[IndexFrom(fns, id, from).value].id == id
    ensures IndexFrom(fns, id, from).None? ==> forall i | from <= i < |fns| :: fns[i].id != id
    decreases |fns| - from
  {
    if from < |fns| && fns[from].id != id { IndexFromIff(fns, id, from + 1); }
  }

  lemma {:induction false} AppliesIff(fns: seq<Function>, g: nat, ty: Type, args: seq<Expr>)
    requires Signatures(fns) && g < |fns|
    ensures (exists f :: f in FunctionSet(fns) && Applies(f, fns[g].id, ty, args)) <==> Applies(fns[g], fns[g].id, ty, args)
  {
    if f :| f in FunctionSet(fns) && Applies(f, fns[g].id, ty, args) {
      var i :| 0 <= i < |fns| && fns[i] == f;
      assert i == g;
    }
    assert fns[g] in FunctionSet(fns);
  }

  lemma {:induction false} NoneApplies(fns: seq<Function>, callee: nat, ty: Type, args: seq<Expr>)
    requires forall i | 0 <= i < |fns| :: fns[i].id != callee
    ensures !exists f :: f in FunctionSet(fns) && Applies(f, callee, ty, args)
  {
  }

  /** The arguments, each of the type of its parameter. */
  ghost predicate ArgsTyped(fp: FloatModel, sigs: set<Function>, env: seq<Param>, args: seq<Expr>, params: seq<Param>)
    requires |args| == |params|
  {
    forall k | 0 <= k < |args| :: args[k].Type() == params[k].ty && ExprTyped(fp, sigs, env, args[k])
  }

  lemma {:induction false} ArgsLower(
      fp: FloatModel, fns: seq<Function>, s: Draft, env: seq<Param>, args: seq<Expr>, params: seq<Param>, depth: nat)
    requires Signatures(fns) && Open(s, env) && |args| == |params| && depth > 0
    ensures LowerArgs(fp, fns, s, args, params, depth).Some? <==>
              && ArgsTyped(fp, FunctionSet(fns), env, args, params) && depth - 1 + ArgsHeight(args) <= Larger(MAX_DEPTH, depth - 1)
              && Room(s, ArgsCost(args), ArgsCost(args))
    ensures LowerArgs(fp, fns, s, args, params, depth).Some? ==>
              Grown(s, LowerArgs(fp, fns, s, args, params, depth).value.draft, ArgsCost(args), ArgsCost(args))
    decreases args, 0
  {
    if args != [] {
      ExprLowers(fp, fns, s, env, args[0], depth);
      var x := LowerExpr(fp, fns, s, args[0], depth);
      if x.Some? { ArgsLower(fp, fns, x.value.draft, env, args[1..], params[1..], depth); }
      ArgsTypedSplit(fp, FunctionSet(fns), env, args, params);
    }
  }

  lemma {:induction false} ArgsTypedSplit(
      fp: FloatModel, sigs: set<Function>, env: seq<Param>, args: seq<Expr>, params: seq<Param>)
    requires |args| == |params| > 0
    ensures ArgsTyped(fp, sigs, env, args, params) <==>
              && args[0].Type() == params[0].ty && ExprTyped(fp, sigs, env, args[0])
              && ArgsTyped(fp, sigs, env, args[1..], params[1..])
  {
    if args[0].Type() == params[0].ty && ExprTyped(fp, sigs, env, args[0]) && ArgsTyped(fp, sigs, env, args[1..], params[1..]) {
      forall k | 0 <= k < |args|
        ensures args[k].Type() == params[k].ty && ExprTyped(fp, sigs, env, args[k])
      {
        if k > 0 { assert args[1..][k - 1] == args[k] && params[1..][k - 1] == params[k]; }
      }
    }
    if ArgsTyped(fp, sigs, env, args, params) {
      forall k | 0 <= k < |args[1..]|
        ensures args[1..][k].Type() == params[1..][k].ty && ExprTyped(fp, sigs, env, args[1..][k])
      {
        assert args[1..][k] == args[k + 1] && params[1..][k] == params[k + 1];
      }
    }
  }

  lemma {:induction false} MovesFit(s: Draft, params: seq<Param>, regs: seq<nat>)
    requires |params| == |regs| && |s.types| <= MAX_REGISTERS && |s.code| <= MAX_INSTRUCTIONS
    ensures EmitMoves(s, params, regs).Some? <==> Room(s, |regs|, |regs|)
    ensures EmitMoves(s, params, regs).Some? ==> Grown(s, EmitMoves(s, params, regs).value, |regs|, |regs|)
    decreases |regs|
  {
    if regs != [] {
      var x := Produce(s, params[0].ty, Move, regs[0], 0, ZERO);
      if x.Some? { MovesFit(x.value.draft, params[1..], regs[1..]); }
    }
  }

  // ----- statements -----

  /** What a lowered statement or list leaves behind. */
  ghost predicate Lowers(
      s: Draft, r: LoweredBody, env: seq<Param>, registers: nat, instructions: nat, ends: bool)
  {
    && Open(r.draft, env) && r.ends == ends
    && |r.draft.types| == |s.types| + registers && |r.draft.code| == |s.code| + instructions && s.code <= r.draft.code
  }

  /** Where control goes on there has to be another instruction. */
  function Behind(always: bool): nat { if always then 0 else 1 }

  lemma {:induction false} SomeInstruction(ss: seq<Stmt>)
    ensures ss != [] ==> ListInstructions(ss) > 0
  {
    if ss != [] { assert StmtInstructions(ss[0]) > 0; }
  }

  /** A new variable at the end of the environment. */
  lemma {:induction false} BindFits(s: Draft, env: seq<Param>, id: nat, ty: Type)
    requires Open(s, env) && |s.types| < MAX_REGISTERS
    ensures var t := Allocate(s, ty).value;
            && (Bind(t, id, |s.types|, ty).Some? <==> id != 0 && !BoundIn(env, id))
            && (Bind(t, id, |s.types|, ty).Some? ==>
                  var u := Bind(t, id, |s.types|, ty).value;
                  Open(u, env + [Param(id, ty)]) && |u.types| == |s.types| + 1 && u.code == s.code)
  {
    FoundIff(s, env, id);
    var t := Allocate(s, ty).value;
    if Bind(t, id, |s.types|, ty).Some? {
      var u := Bind(t, id, |s.types|, ty).value;
      assert EnvOf(u.locals) == env + [Param(id, ty)];
      forall i | 0 <= i < |s.locals|
        ensures s.locals[i].id != id
      {
        assert env[i].id == s.locals[i].id;
      }
    }
  }

  ghost predicate StmtIff(fp: FloatModel, fns: seq<Function>, ret: Type, s: Draft, env: seq<Param>, st: Stmt, depth: nat) {
    && (StmtTyped(fp, FunctionSet(fns), ret, env, st) && depth + Nesting(st) <= MAX_DEPTH
        && Room(s, StmtRegisters(st), StmtInstructions(st) + Behind(AlwaysReturns(st)))
        ==> LowerStmt(fp, fns, ret, s, st, depth).Some?)
    && (LowerStmt(fp, fns, ret, s, st, depth).Some? ==>
          && StmtTyped(fp, FunctionSet(fns), ret, env, st) && Room(s, StmtRegisters(st), StmtInstructions(st))
          && Lowers(s, LowerStmt(fp, fns, ret, s, st, depth).value, env + Declared(st), StmtRegisters(st),
                    StmtInstructions(st), AlwaysReturns(st)))
  }

  ghost predicate ListIff(fp: FloatModel, fns: seq<Function>, ret: Type, s: Draft, env: seq<Param>, ss: seq<Stmt>, depth: nat) {
    && (ListTyped(fp, FunctionSet(fns), ret, env, ss) && depth + ListNesting(ss) <= MAX_DEPTH
        && Room(s, ListRegisters(ss), ListInstructions(ss) + Behind(ListReturns(ss)))
        ==> LowerList(fp, fns, ret, s, ss, depth).Some?)
    && (LowerList(fp, fns, ret, s, ss, depth).Some? ==>
          && ListTyped(fp, FunctionSet(fns), ret, env, ss) && Room(s, ListRegisters(ss), ListInstructions(ss))
          && Lowers(s, LowerList(fp, fns, ret, s, ss, depth).value, env + DeclaredIn(ss), ListRegisters(ss),
                    ListInstructions(ss), ListReturns(ss)))
  }

  lemma {:induction false} StmtLowers(
      fp: FloatModel, fns: seq<Function>, ret: Type, s: Draft, env: seq<Param>, st: Stmt, depth: nat)
    requires Signatures(fns) && Open(s, env)
    ensures StmtIff(fp, fns, ret, s, env, st, depth)
    decreases st, 3
  {
    match st
    case Declare(ty, id, init) => DeclareLowers(fp, fns, ret, s, env, st, depth);
    case Assign(_, _, _) => AssignLowers(fp, fns, ret, s, env, st, depth);
    case Return(_, _) => ReturnLowers(fp, fns, ret, s, env, st, depth);
    case If(_, _, _) => IfLowers(fp, fns, ret, s, env, st, depth);
  }

  lemma {:induction false} AssignLowers(
      fp: FloatModel, fns: seq<Function>, ret: Type, s: Draft, env: seq<Param>, st: Stmt, depth: nat)
    requires Signatures(fns) && Open(s, env) && st.Assign?
    ensures StmtIff(fp, fns, ret, s, env, st, depth)
  {
    FoundIff(s, env, st.id);
    ExprLowers(fp, fns, s, env, st.value, 0);
    assert env + [] == env;
  }

  lemma {:induction false} ReturnLowers(
      fp: FloatModel, fns: seq<Function>, ret: Type, s: Draft, env: seq<Param>, st: Stmt, depth: nat)
    requires Signatures(fns) && Open(s, env) && st.Return?
    ensures StmtIff(fp, fns, ret, s, env, st, depth)
  {
    ExprLowers(fp, fns, s, env, st.result, 0);
    assert env + [] == env;
  }

  lemma {:induction false} DeclareLowers(
      fp: FloatModel, fns: seq<Function>, ret: Type, s: Draft, env: seq<Param>, st: Stmt, depth: nat)
    requires Signatures(fns) && Open(s, env) && st.Declare?
    ensures StmtIff(fp, fns, ret, s, env, st, depth)
  {
    var ty, id := st.declareType, st.id;
    if |s.types| < MAX_REGISTERS {
      BindFits(s, env, id, ty);
      var u := Bind(Allocate(s, ty).value, id, |s.types|, ty);
      if u.Some? { ExprLowers(fp, fns, u.value, env + [Param(id, ty)], st.init, 0); }
    }
  }

  lemma {:induction false} ListLowers(
      fp: FloatModel, fns: seq<Function>, ret: Type, s: Draft, env: seq<Param>, ss: seq<Stmt>, depth: nat)
    requires Signatures(fns) && Open(s, env)
    ensures ListIff(fp, fns, ret, s, env, ss, depth)
    decreases ss
  {
    if ss == [] {
      assert env + [] == env;
    } else {
      StmtLowers(fp, fns, ret, s, env, ss[0], depth);
      var r := LowerStmt(fp, fns, ret, s, ss[0], depth);
      SomeInstruction(ss[1..]);
      assert (env + Declared(ss[0])) + DeclaredIn(ss[1..]) == env + DeclaredIn(ss);
      if |ss| == 1 {
        assert ss[1..] == [] && env + Declared(ss[0]) + [] == env + Declared(ss[0]);
      } else if r.Some? && !r.value.ends {
        ListLowers(fp, fns, ret, r.value.draft, env + Declared(ss[0]), ss[1..], depth);
      }
    }
  }

  /** Setting a target. */
  lemma {:induction false} PatchFits(s: Draft, env: seq<Param>, index: nat, target: nat)
    requires Open(s, env) && index < |s.code| && (s.code[index].op.Jump? || s.code[index].op.JumpIfFalse?)
    ensures Patch(s, index, target).Some? <==> target < MAX_INSTRUCTIONS
    ensures Patch(s, index, target).Some? ==>
              var t := Patch(s, index, target).value;
              && Open(t, env) && |t.code| == |s.code| && t.types == s.types && s.code[..index] <= t.code
              && forall k | 0 <= k < |s.code| && k != index :: t.code[k] == s.code[k]
  {
  }

  lemma {:induction false} IfLowers(
      fp: FloatModel, fns: seq<Function>, ret: Type, s: Draft, env: seq<Param>, st: Stmt, depth: nat)
    requires Signatures(fns) && Open(s, env) && st.If?
    ensures StmtIff(fp, fns, ret, s, env, st, depth)
    decreases st, 2
  {
    ExprLowers(fp, fns, s, env, st.cond, 0);
    var x := LowerExpr(fp, fns, s, st.cond, 0);
    if x.Some? && |x.value.draft.code| < MAX_INSTRUCTIONS && depth <= MAX_DEPTH && st.cond.Type() == Boolean {
      var s1 := Emit(x.value.draft, Instruction(JumpIfFalse, x.value.reg, UINT32_MAX, 0, ZERO)).value;
      ListLowers(fp, fns, ret, s1, env, st.thenBody, depth + 1);
      var t := LowerList(fp, fns, ret, s1, st.thenBody, depth + 1);
      if t.Some? {
        assert t.value.draft.code[|x.value.draft.code|] == s1.code[|x.value.draft.code|];
        if st.elseBody == [] { AloneLowers(fp, fns, ret, s, env, st, depth, x.value, t.value); }
        else if t.value.ends { EndedLowers(fp, fns, ret, s, env, st, depth, x.value, t.value); }
        else { BothLower(fp, fns, ret, s, env, st, depth, x.value, t.value); }
      }
    }
  }

  /** The condition and the first branch of a conditional have been lowered. */
  ghost predicate HalfLowered(
      fp: FloatModel, fns: seq<Function>, ret: Type, s: Draft, env: seq<Param>, st: Stmt, depth: nat, x: Lowered, t: LoweredBody)
  {
    && Signatures(fns) && Open(s, env) && st.If? && depth <= MAX_DEPTH && st.cond.Type() == Boolean
    && LowerExpr(fp, fns, s, st.cond, 0) == Some(x) && ExprTyped(fp, FunctionSet(fns), env, st.cond)
    && Grown(s, x.draft, Cost(st.cond), Cost(st.cond)) && |x.draft.code| < MAX_INSTRUCTIONS
    && Emit(x.draft, Instruction(JumpIfFalse, x.reg, UINT32_MAX, 0, ZERO)).Some?
    && var s1 := Emit(x.draft, Instruction(JumpIfFalse, x.reg, UINT32_MAX, 0, ZERO)).value;
    && LowerList(fp, fns, ret, s1, st.thenBody, depth + 1) == Some(t)
    && ListTyped(fp, FunctionSet(fns), ret, env, st.thenBody)
    && Lowers(s1, t, env + DeclaredIn(st.thenBody), ListRegisters(st.thenBody), ListInstructions(st.thenBody),
              ListReturns(st.thenBody))
    && |x.draft.code| < |t.draft.code| && t.draft.code[|x.draft.code|].op.JumpIfFalse?
  }

  lemma {:induction false} AloneLowers(
      fp: FloatModel, fns: seq<Function>, ret: Type, s: Draft, env: seq<Param>, st: Stmt, depth: nat, x: Lowered, t: LoweredBody)
    requires HalfLowered(fp, fns, ret, s, env, st, depth, x, t) && st.elseBody == []
    ensures StmtIff(fp, fns, ret, s, env, st, depth)
  {
    PatchFits(t.draft, env + DeclaredIn(st.thenBody), |x.draft.code|, |t.draft.code|);
    assert Declared(st) == DeclaredIn(st.thenBody);
    assert ListTyped(fp, FunctionSet(fns), ret, env + DeclaredIn(st.thenBody), []);
  }

  lemma {:induction false} EndedLowers(
      fp: FloatModel, fns: seq<Function>, ret: Type, s: Draft, env: seq<Param>, st: Stmt, depth: nat, x: Lowered, t: LoweredBody)
    requires HalfLowered(fp, fns, ret, s, env, st, depth, x, t) && st.elseBody != [] && t.ends
    ensures StmtIff(fp, fns, ret, s, env, st, depth)
    decreases st, 0
  {
    var mid := env + DeclaredIn(st.thenBody);
    PatchFits(t.draft, mid, |x.draft.code|, |t.draft.code|);
    SomeInstruction(st.elseBody);
    assert mid + DeclaredIn(st.elseBody) == env + Declared(st);
    var s3 := Patch(t.draft, |x.draft.code|, |t.draft.code|);
    if s3.Some? {
      ListLowers(fp, fns, ret, s3.value, mid, st.elseBody, depth + 1);
      var e := LowerList(fp, fns, ret, s3.value, st.elseBody, depth + 1);
      if e.Some? {
        assert s.code <= s3.value.code;
        assert Lowers(s, e.value, env + Declared(st), StmtRegisters(st), StmtInstructions(st), AlwaysReturns(st));
      }
    }
  }

  /** The draft when the other branch begins behind a jump. */
  function ElseDraft(x: Lowered, t: LoweredBody): Option<Draft> {
    var s2 :- Emit(t.draft, Instruction(Jump, UINT32_MAX, 0, 0, ZERO));
    Patch(s2, |x.draft.code|, |s2.code|)
  }

  /** The end of that branch. */
  function ElseEnd(t: LoweredBody, e: Option<LoweredBody>): Option<LoweredBody> {
    var body :- e;
    var s4 :- Patch(body.draft, |t.draft.code|, |body.draft.code|);
    Some(LoweredBody(s4, false))
  }

  lemma {:induction false} BothUnfolds(
      fp: FloatModel, fns: seq<Function>, ret: Type, s: Draft, env: seq<Param>, st: Stmt, depth: nat, x: Lowered, t: LoweredBody)
    requires HalfLowered(fp, fns, ret, s, env, st, depth, x, t) && st.elseBody != [] && !t.ends
    ensures LowerStmt(fp, fns, ret, s, st, depth)
         == if ElseDraft(x, t).None? then None
            else ElseEnd(t, LowerList(fp, fns, ret, ElseDraft(x, t).value, st.elseBody, depth + 1))
  {
  }

  lemma {:induction false} ElseDraftFits(
      fp: FloatModel, fns: seq<Function>, ret: Type, s: Draft, env: seq<Param>, st: Stmt, depth: nat, x: Lowered, t: LoweredBody)
    requires HalfLowered(fp, fns, ret, s, env, st, depth, x, t) && !t.ends
    ensures ElseDraft(x, t).Some? <==> |t.draft.code| + 1 < MAX_INSTRUCTIONS
    ensures ElseDraft(x, t).Some? ==>
              var m := ElseDraft(x, t).value;
              && Open(m, env + DeclaredIn(st.thenBody)) && |m.code| == |t.draft.code| + 1 && m.types == t.draft.types
              && s.code <= m.code && m.code[|t.draft.code|].op.Jump?
  {
    if |t.draft.code| < MAX_INSTRUCTIONS {
      var s2 := Emit(t.draft, Instruction(Jump, UINT32_MAX, 0, 0, ZERO)).value;
      PatchFits(s2, env + DeclaredIn(st.thenBody), |x.draft.code|, |s2.code|);
    }
  }

  lemma {:induction false} ElseEndFits(t: LoweredBody, m: Draft, e: LoweredBody, env: seq<Param>, start: nat)
    requires Open(e.draft, env) && m.code <= e.draft.code && start <= |t.draft.code| < |m.code| && m.code[|t.draft.code|].op.Jump?
    ensures ElseEnd(t, Some(e)).Some? <==> |e.draft.code| < MAX_INSTRUCTIONS
    ensures ElseEnd(t, Some(e)).Some? ==>
              var r := ElseEnd(t, Some(e)).value;
              && Open(r.draft, env) && |r.draft.code| == |e.draft.code| && r.draft.types == e.draft.types && !r.ends
              && m.code[..start] <= r.draft.code
  {
    assert e.draft.code[|t.draft.code|] == m.code[|t.draft.code|];
    PatchFits(e.draft, env, |t.draft.code|, |e.draft.code|);
  }

  /** Both branches together. */
  lemma {:induction false} ElseEndLowers(
      s: Draft, env: seq<Param>, st: Stmt, x: Lowered, t: LoweredBody, m: Draft, e: LoweredBody)
    requires st.If? && st.elseBody != [] && !ListReturns(st.thenBody) && s.code <= m.code
    requires |s.code| <= |t.draft.code| && |t.draft.code| + 1 == |m.code| && m.code[|t.draft.code|].op.Jump?
    requires |m.types| == |s.types| + Cost(st.cond) + ListRegisters(st.thenBody)
    requires |m.code| == |s.code| + Cost(st.cond) + 1 + ListInstructions(st.thenBody) + 1
    requires Lowers(m, e, env + DeclaredIn(st.thenBody) + DeclaredIn(st.elseBody), ListRegisters(st.elseBody),
                    ListInstructions(st.elseBody), ListReturns(st.elseBody))
    ensures ElseEnd(t, Some(e)).Some? <==> |s.code| + StmtInstructions(st) < MAX_INSTRUCTIONS
    ensures ElseEnd(t, Some(e)).Some? ==>
              Lowers(s, ElseEnd(t, Some(e)).value, env + Declared(st), StmtRegisters(st), StmtInstructions(st), AlwaysReturns(st))
  {
    assert (env + DeclaredIn(st.thenBody)) + DeclaredIn(st.elseBody) == env + Declared(st);
    ElseEndFits(t, m, e, env + Declared(st), |s.code|);
    assert m.code[..|s.code|] == s.code;
  }

  lemma {:induction false} BothLower(
      fp: FloatModel, fns: seq<Function>, ret: Type, s: Draft, env: seq<Param>, st: Stmt, depth: nat, x: Lowered, t: LoweredBody)
    requires HalfLowered(fp, fns, ret, s, env, st, depth, x, t) && st.elseBody != [] && !t.ends
    ensures StmtIff(fp, fns, ret, s, env, st, depth)
    decreases st, 1
  {
    BothUnfolds(fp, fns, ret, s, env, st, depth, x, t);
    ElseDraftFits(fp, fns, ret, s, env, st, depth, x, t);
    BothFinish(fp, fns, ret, s, env, st, depth, x, t, ElseDraft(x, t));
  }

  /** The second of two branches, and the end. */
  lemma {:induction false} BothFinish(
      fp: FloatModel, fns: seq<Function>, ret: Type, s: Draft, env: seq<Param>, st: Stmt, depth: nat, x: Lowered, t: LoweredBody,
      m: Option<Draft>)
    requires Signatures(fns) && st.If? && st.elseBody != [] && st.cond.Type() == Boolean && !ListReturns(st.thenBody)
    requires ExprTyped(fp, FunctionSet(fns), env, st.cond) && ListTyped(fp, FunctionSet(fns), ret, env, st.thenBody)
    requires LowerStmt(fp, fns, ret, s, st, depth)
          == if m.None? then None else ElseEnd(t, LowerList(fp, fns, ret, m.value, st.elseBody, depth + 1))
    requires m.Some? <==> |t.draft.code| + 1 < MAX_INSTRUCTIONS
    requires |t.draft.code| + 1 == |s.code| + Cost(st.cond) + 1 + ListInstructions(st.thenBody) + 1
    requires |s.types| + Cost(st.cond) + ListRegisters(st.thenBody) <= MAX_REGISTERS
    requires m.Some? ==>
               && Open(m.value, env + DeclaredIn(st.thenBody)) && s.code <= m.value.code
               && |m.value.code| == |t.draft.code| + 1 && m.value.code[|t.draft.code|].op.Jump?
               && |m.value.types| == |s.types| + Cost(st.cond) + ListRegisters(st.thenBody)
    ensures StmtIff(fp, fns, ret, s, env, st, depth)
    decreases st, 0
  {
    SomeInstruction(st.elseBody);
    if m.Some? {
      ListLowers(fp, fns, ret, m.value, env + DeclaredIn(st.thenBody), st.elseBody, depth + 1);
      var e := LowerList(fp, fns, ret, m.value, st.elseBody, depth + 1);
      if e.Some? { ElseEndLowers(s, env, st, x, t, m.value, e.value); }
    }
  }

  // ----- functions -----

  function FunctionRegisters(f: Function): nat { |f.params| + ListRegisters(f.body) }

  function FunctionInstructions(f: Function): nat { 1 + ListInstructions(f.body) }

  /** Parameters that can be bound one after the other. */
  ghost predicate Binds(env: seq<Param>, params: seq<Param>)
    decreases |params|
  {
    params != [] ==>
      && params[0].id != 0 && !BoundIn(env, params[0].id)
      && Binds(env + [params[0]], params[1..])
  }

  lemma {:induction false} BindsIff(env: seq<Param>, params: seq<Param>)
    ensures Binds(env, params) <==>
              && (forall i | 0 <= i < |params| :: params[i].id != 0 && !BoundIn(env, params[i].id))
              && forall i, j | 0 <= i < j < |params| :: params[i].id != params[j].id
    decreases |params|
  {
    if params != [] {
      var more, rest := env + [params[0]], params[1..];
      BindsIff(more, rest);
      forall id
        ensures BoundIn(more, id) <==> BoundIn(env, id) || id == params[0].id
      {
        if BoundIn(env, id) {
          var i :| 0 <= i < |env| && env[i].id == id;
          assert more[i].id == id;
        }
        if id == params[0].id { assert more[|env|].id == id; }
      }
      assert forall i | 0 <= i < |rest| :: rest[i] == params[i + 1];
      assert forall i | 0 < i < |params| :: params[i] == rest[i - 1];
    }
  }

  lemma {:induction false} ParamsLower(s: Draft, env: seq<Param>, params: seq<Param>)
    requires Open(s, env)
    ensures LowerParams(s, params).Some? <==> |s.types| + |params| <= MAX_REGISTERS && Binds(env, params)
    ensures LowerParams(s, params).Some? ==>
              var t := LowerParams(s, params).value;
              Open(t, env + params) && |t.types| == |s.types| + |params| && t.code == s.code
    decreases |params|
  {
    if params == [] {
      assert env + params == env;
    } else if |s.types| < MAX_REGISTERS {
      BindFits(s, env, params[0].id, params[0].ty);
      assert [Param(params[0].id, params[0].ty)] == [params[0]];
      var u := Bind(Allocate(s, params[0].ty).value, params[0].id, |s.types|, params[0].ty);
      assert (env + [params[0]]) + params[1..] == env + params;
      if u.Some? { ParamsLower(u.value, env + [params[0]], params[1..]); }
    }
  }

  /** Exactly well typed functions that always return are lowered, if they are not too deep and there is room. */
  lemma {:induction false} FunctionLowers(fp: FloatModel, fns: seq<Function>, s: Draft, f: nat)
    requires Signatures(fns) && f < |fns| && |s.types| <= MAX_REGISTERS && |s.code| <= MAX_INSTRUCTIONS
    ensures FunctionTyped(fp, FunctionSet(fns), fns[f]) && ListNesting(fns[f].body) <= MAX_DEPTH
            && Room(s, FunctionRegisters(fns[f]), FunctionInstructions(fns[f]))
            ==> LowerFunction(fp, fns, s, f).Some?
    ensures LowerFunction(fp, fns, s, f).Some? ==>
              && FunctionTyped(fp, FunctionSet(fns), fns[f]) && Room(s, FunctionRegisters(fns[f]), FunctionInstructions(fns[f]))
              && |LowerFunction(fp, fns, s, f).value.types| == |s.types| + FunctionRegisters(fns[f])
              && |LowerFunction(fp, fns, s, f).value.code| == |s.code| + FunctionInstructions(fns[f])
  {
    var params, body, ret := fns[f].params, fns[f].body, fns[f].returnType;
    BindsIff([], params);
    if |s.code| < MAX_INSTRUCTIONS && |params| <= MAX_REGISTERS {
      var s1 := Emit(s, Instruction(FunctionMark, f, |s.types|, |params|, ZERO)).value.(locals := []);
      assert EnvOf([]) == [];
      ParamsLower(s1, [], params);
      assert [] + params == params;
      var o := OpenFunction(s, f, params);
      if o.Some? { ListLowers(fp, fns, ret, o.value, params, body, 0); }
    }
  }

  function Registers(fns: seq<Function>): nat {
    if fns == [] then 0 else Registers(fns[..|fns| - 1]) + FunctionRegisters(fns[|fns| - 1])
  }

  function Instructions(fns: seq<Function>): nat {
    if fns == [] then 0 else Instructions(fns[..|fns| - 1]) + FunctionInstructions(fns[|fns| - 1])
  }

  lemma {:induction false} TotalsAppend(a: seq<Function>, b: seq<Function>)
    ensures Registers(a + b) == Registers(a) + Registers(b) && Instructions(a + b) == Instructions(a) + Instructions(b)
    decreases |b|
  {
    if b == [] {
      assert a + b == a;
    } else {
      var n := |b| - 1;
      TotalsAppend(a, b[..n]);
      assert (a + b)[..|a + b| - 1] == a + b[..n];
    }
  }

  ghost predicate AllTyped(fp: FloatModel, sigs: set<Function>, fns: seq<Function>) {
    forall i | 0 <= i < |fns| :: FunctionTyped(fp, sigs, fns[i])
  }

  predicate NotTooDeep(fns: seq<Function>) { forall i | 0 <= i < |fns| :: ListNesting(fns[i].body) <= MAX_DEPTH }

  lemma {:induction false} FirstLower(fp: FloatModel, fns: seq<Function>, k: nat)
    requires Signatures(fns) && k <= |fns|
    ensures AllTyped(fp, FunctionSet(fns), fns[..k]) && NotTooDeep(fns[..k])
            && Registers(fns[..k]) <= MAX_REGISTERS && Instructions(fns[..k]) <= MAX_INSTRUCTIONS
            ==> LowerFirst(fp, fns, k).Some?
    ensures LowerFirst(fp, fns, k).Some? ==>
              && AllTyped(fp, FunctionSet(fns), fns[..k])
              && |LowerFirst(fp, fns, k).value.types| == Registers(fns[..k]) <= MAX_REGISTERS
              && |LowerFirst(fp, fns, k).value.code| == Instructions(fns[..k]) <= MAX_INSTRUCTIONS
    decreases k
  {
    if k > 0 {
      var n := k - 1;
      FirstLower(fp, fns, n);
      assert fns[..k][..n] == fns[..n] && fns[..k][n] == fns[n];
      assert fns[..k] == fns[..n] + [fns[n]];
      var s := LowerFirst(fp, fns, n);
      if s.Some? { FunctionLowers(fp, fns, s.value, n); }
    }
  }
}
