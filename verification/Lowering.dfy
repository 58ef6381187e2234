/** What the lowering of typed HIR to bytecode computes, as functions on the draft it builds.
    None stands for a rejected program. */
module Lowering {
  import opened Wrappers
  import opened Floats
  import opened Hir
  import opened Bytecode

  const MAX_DEPTH: nat := 256

  datatype Local = Local(id: nat, reg: nat, ty: Type)

  /** The instructions so far, the bindings of the current function and one type tag per register. */
  datatype Draft = Draft(code: seq<Instruction>, locals: seq<Local>, types: seq<nat>)

  /** The result of an expression: the register that holds its value. */
  datatype Lowered = Lowered(draft: Draft, reg: nat)

  datatype LoweredArgs = LoweredArgs(draft: Draft, regs: seq<nat>)

  /** The result of statements: whether they always return. */
  datatype LoweredBody = LoweredBody(draft: Draft, ends: bool)

  function Tag(ty: Type): nat { if ty == Number then NUMBER_TAG else BOOLEAN_TAG }

  function Emit(s: Draft, ins: Instruction): Option<Draft> {
    if |s.code| >= MAX_INSTRUCTIONS then None else Some(s.(code := s.code + [ins]))
  }

  function Allocate(s: Draft, ty: Type): Option<Draft> {
    if |s.types| >= MAX_REGISTERS then None else Some(s.(types := s.types + [Tag(ty)]))
  }

  /** Sets the target of the branch at `index`. */
  function Patch(s: Draft, index: nat, target: nat): Option<Draft> {
    if index >= |s.code| || target >= MAX_INSTRUCTIONS then None
    else if s.code[index].op.Jump? then Some(s.(code := s.code[index := s.code[index].(a := target)]))
    else if s.code[index].op.JumpIfFalse? then Some(s.(code := s.code[index := s.code[index].(b := target)]))
    else None
  }

  /** The most recent binding of a symbol. */
  function FindLocal(locals: seq<Local>, id: nat): Option<Local> {
    if id == 0 || locals == [] then None
    else if locals[|locals| - 1].id == id then Some(locals[|locals| - 1])
    else FindLocal(locals[..|locals| - 1], id)
  }

  function Bind(s: Draft, id: nat, reg: nat, ty: Type): Option<Draft> {
    if id == 0 || FindLocal(s.locals, id).Some? || |s.locals| >= MAX_REGISTERS then None
    else Some(s.(locals := s.locals + [Local(id, reg, ty)]))
  }

  function IndexFrom(fns: seq<Function>, id: nat, from: nat): Option<nat>
    decreases |fns| - from
  {
    if from >= |fns| then None
    else if fns[from].id == id then Some(from)
    else IndexFrom(fns, id, from + 1)
  }

  function FunctionIndex(fns: seq<Function>, id: nat): Option<nat> {
    if id == 0 then None else IndexFrom(fns, id, 0)
  }

  /** A fresh register and the instruction that fills it. */
  function Produce(s: Draft, ty: Type, op: Opcode, b: nat, c: nat, imm: Double): Option<Lowered> {
    var s1 :- Allocate(s, ty);
    var s2 :- Emit(s1, Instruction(op, |s.types|, b, c, imm));
    Some(Lowered(s2, |s.types|))
  }

  function OpcodeOf(op: Operator): Opcode {
    match op
    case Arithmetic(arith) => Calc(arith)
    case Comparison(test) => Test(test)
    case Unsupported => Unknown(0)
  }

  predicate BinaryTypes(ty: Type, op: Operator, left: Type, right: Type) {
    match op
    case Arithmetic(_) => ty == Number && left == Number && right == Number
    case Comparison(test) => ty == Boolean && left == right && (left == Boolean ==> test.Equal? || test.NotEqual?)
    case Unsupported => false
  }

  function LowerExpr(fp: FloatModel, fns: seq<Function>, s: Draft, e: Expr, depth: nat): Option<Lowered>
    decreases e
  {
    if depth > MAX_DEPTH then None
    else
      match e
      case NumberLiteral(x) =>
        if fp.finite(x) then Produce(s, Number, ConstF64, 0, 0, x) else None
      case BooleanLiteral(b) => Produce(s, Boolean, ConstBool, 0, 0, Truth(b))
      case Variable(ty, id) =>
        var l :- FindLocal(s.locals, id);
        if l.ty == ty then Some(Lowered(s, l.reg)) else None
      case Binary(ty, op, left, right) =>
        if !BinaryTypes(ty, op, left.Type(), right.Type()) then None
        else
          var x :- LowerExpr(fp, fns, s, left, depth + 1);
          var y :- LowerExpr(fp, fns, x.draft, right, depth + 1);
          Produce(y.draft, ty, OpcodeOf(op), x.reg, y.reg, ZERO)
      case Call(ty, callee, args) =>
        var g :- FunctionIndex(fns, callee);
        if g >= MAX_FUNCTIONS || g >= |fns| || !fns[g].resolved || ty != fns[g].returnType
           || |args| != |fns[g].params| || |args| > MAX_REGISTERS then None
        else
          var xs :- LowerArgs(fp, fns, s, args, fns[g].params, depth + 1);
          var moved :- EmitMoves(xs.draft, fns[g].params, xs.regs);
          Produce(moved, ty, Opcode.Call, g, |xs.draft.types|, fp.ofWhole(|args|))
  }

  function LowerArgs(
      fp: FloatModel, fns: seq<Function>, s: Draft, args: seq<Expr>, params: seq<Param>, depth: nat)
    : (r: Option<LoweredArgs>)
    requires |args| == |params|
    ensures r.Some? ==> |r.value.regs| == |args|
    decreases args
  {
    if args == [] then Some(LoweredArgs(s, []))
    else if args[0].Type() != params[0].ty then None
    else
      var x :- LowerExpr(fp, fns, s, args[0], depth);
      var xs :- LowerArgs(fp, fns, x.draft, args[1..], params[1..], depth);
      Some(LoweredArgs(xs.draft, [x.reg] + xs.regs))
  }

  /** Copies the arguments into consecutive fresh registers. */
  function EmitMoves(s: Draft, params: seq<Param>, regs: seq<nat>): Option<Draft>
    requires |params| == |regs|
    decreases |regs|
  {
    if regs == [] then Some(s)
    else
      var x :- Produce(s, params[0].ty, Move, regs[0], 0, ZERO);
      EmitMoves(x.draft, params[1..], regs[1..])
  }

  function LowerStmt(
      fp: FloatModel, fns: seq<Function>, ret: Type, s: Draft, st: Stmt, depth: nat): Option<LoweredBody>
    decreases st
  {
    if depth > MAX_DEPTH then None
    else
      match st
      case Declare(ty, id, init) =>
        if init.Type() != ty then None
        else
          var s1 :- Allocate(s, ty);
          var s2 :- Bind(s1, id, |s.types|, ty);
          var x :- LowerExpr(fp, fns, s2, init, 0);
          var s3 :- Emit(x.draft, Instruction(Move, |s.types|, x.reg, 0, ZERO));
          Some(LoweredBody(s3, false))
      case Assign(ty, id, value) =>
        var l :- FindLocal(s.locals, id);
        if l.ty != ty || value.Type() != l.ty then None
        else
          var x :- LowerExpr(fp, fns, s, value, 0);
          var s1 :- Emit(x.draft, Instruction(Move, l.reg, x.reg, 0, ZERO));
          Some(LoweredBody(s1, false))
      case Return(ty, result) =>
        if ty != ret || result.Type() != ty then None
        else
          var x :- LowerExpr(fp, fns, s, result, 0);
          var s1 :- Emit(x.draft, Instruction(Opcode.Return, x.reg, 0, 0, ZERO));
          Some(LoweredBody(s1, true))
      case If(cond, thenBody, elseBody) =>
        if cond.Type() != Boolean then None
        else
          var x :- LowerExpr(fp, fns, s, cond, 0);
          var s1 :- Emit(x.draft, Instruction(JumpIfFalse, x.reg, UINT32_MAX, 0, ZERO));
          var t :- LowerList(fp, fns, ret, s1, thenBody, depth + 1);
          if elseBody == [] then
            var s3 :- Patch(t.draft, |x.draft.code|, |t.draft.code|);
            Some(LoweredBody(s3, false))
          else if t.ends then
            var s3 :- Patch(t.draft, |x.draft.code|, |t.draft.code|);
            LowerList(fp, fns, ret, s3, elseBody, depth + 1)
          else
            var s2 :- Emit(t.draft, Instruction(Jump, UINT32_MAX, 0, 0, ZERO));
            var s3 :- Patch(s2, |x.draft.code|, |s2.code|);
            var e :- LowerList(fp, fns, ret, s3, elseBody, depth + 1);
            var s4 :- Patch(e.draft, |t.draft.code|, |e.draft.code|);
            Some(LoweredBody(s4, false))
  }

  /** A statement after one that always returns is rejected. */
  function LowerList(
      fp: FloatModel, fns: seq<Function>, ret: Type, s: Draft, ss: seq<Stmt>, depth: nat): Option<LoweredBody>
    decreases ss
  {
    if ss == [] then Some(LoweredBody(s, false))
    else
      var r :- LowerStmt(fp, fns, ret, s, ss[0], depth);
      if |ss| == 1 then Some(r)
      else if r.ends then None
      else LowerList(fp, fns, ret, r.draft, ss[1..], depth)
  }

  /** Parameters take the first registers of their function. */
  function LowerParams(s: Draft, params: seq<Param>): Option<Draft>
    decreases |params|
  {
    if params == [] then Some(s)
    else
      var s1 :- Allocate(s, params[0].ty);
      var s2 :- Bind(s1, params[0].id, |s.types|, params[0].ty);
      LowerParams(s2, params[1..])
  }

  /** The draft when the body of function f is about to be lowered. */
  function OpenFunction(s: Draft, f: nat, params: seq<Param>): Option<Draft> {
    if |params| > MAX_REGISTERS then None
    else
      var s1 :- Emit(s, Instruction(FunctionMark, f, |s.types|, |params|, ZERO));
      LowerParams(s1.(locals := []), params)
  }

  function LowerFunction(fp: FloatModel, fns: seq<Function>, s: Draft, f: nat): Option<Draft>
    requires f < |fns|
  {
    var s1 :- OpenFunction(s, f, fns[f].params);
    var r :- LowerList(fp, fns, fns[f].returnType, s1, fns[f].body, 0);
    if r.ends then Some(r.draft) else None
  }

  /** The draft after the first k functions. */
  function LowerFirst(fp: FloatModel, fns: seq<Function>, k: nat): Option<Draft>
    requires k <= |fns|
  {
    if k == 0 then Some(Draft([], [], []))
    else
      var s :- LowerFirst(fp, fns, k - 1);
      LowerFunction(fp, fns, s, k - 1)
  }
}
