/** The compiler as the program runs it: one lowering object that grows an instruction list, back-patches
    branches and counts registers, and an edge matrix filled while the source is walked. */
module HirCompiler {
  import opened Wrappers
  import opened Floats
  import opened Hir
  import opened Bytecode
  import opened Lowering
  import opened CallGraph
  import opened Compiler
  import Compilable
  import LoweringFacts

  predicate IsBranch(op: Opcode) { op.Jump? || op.JumpIfFalse? }

  /** The same branch, but to another target. */
  predicate Retargeted(before: Instruction, after: Instruction, target: nat)
    requires IsBranch(before.op)
  {
    && after.op == before.op && after.c == before.c && after.imm == before.imm
    && if before.op.Jump? then after.a == target && after.b == before.b else after.a == before.a && after.b == target
  }

  /** No binding of the symbol. */
  predicate Unbound(locals: seq<Local>, id: nat) { forall i | 0 <= i < |locals| :: locals[i].id != id }

  lemma {:induction false} BindOther(locals: seq<Local>, local: Local, other: nat)
    requires local.id != other
    ensures FindLocal(locals + [local], other) == FindLocal(locals, other)
  {
    assert (locals + [local])[..|locals|] == locals;
  }

  class LoweringState {
    const fp: FloatModel
    const functions: seq<Function>
    var instructions: seq<Instruction>
    var locals: seq<Local>
    var registerTypes: array<nat>
    var registerCount: nat

    ghost predicate Valid()
      reads this
    {
      registerTypes.Length == MAX_REGISTERS && registerCount <= MAX_REGISTERS
    }

    ghost function Contents(): Draft
      reads this, registerTypes
      requires Valid()
    {
      Draft(instructions, locals, registerTypes[..registerCount])
    }

    constructor (fp: FloatModel, functions: seq<Function>)
      ensures Valid() && Contents() == Draft([], [], []) && fresh(registerTypes)
      ensures this.fp == fp && this.functions == functions
    {
      this.fp := fp;
      this.functions := functions;
      instructions, locals, registerCount := [], [], 0;
      registerTypes := new nat[MAX_REGISTERS];
    }

    method EmitInstruction(op: Opcode, a: nat, b: nat, c: nat, immediate: Double) returns (ok: bool, index: nat)
      requires Valid()
      modifies this
      ensures Valid() && registerTypes == old(registerTypes)
      ensures ok <==> Emit(old(Contents()), Instruction(op, a, b, c, immediate)).Some?
      ensures ok ==> Contents() == Emit(old(Contents()), Instruction(op, a, b, c, immediate)).value
      ensures ok <==> |old(instructions)| < MAX_INSTRUCTIONS
      ensures ok ==> instructions == old(instructions) + [Instruction(op, a, b, c, immediate)] && index == |old(instructions)|
      ensures locals == old(locals) && registerCount == old(registerCount)
    {
      index := |instructions|;
      if |instructions| >= MAX_INSTRUCTIONS { return false, index; }
      instructions := instructions + [Instruction(op, a, b, c, immediate)];
      ok := true;
    }

    method AllocateRegister(ty: Type) returns (ok: bool, reg: nat)
      requires Valid()
      modifies this, registerTypes
      ensures Valid() && registerTypes == old(registerTypes)
      ensures ok <==> Allocate(old(Contents()), ty).Some?
      ensures ok ==> Contents() == Allocate(old(Contents()), ty).value && reg == old(registerCount)
    {
      reg := registerCount;
      if registerCount >= MAX_REGISTERS { return false, reg; }
      ghost var was := registerTypes[..registerCount];
      registerTypes[reg] := if ty == Number then NUMBER_TAG else BOOLEAN_TAG;
      registerCount := registerCount + 1;
      assert registerTypes[..registerCount] == was + [Tag(ty)];
      ok := true;
    }

    method PatchTarget(index: nat, target: nat) returns (ok: bool)
      requires Valid()
      modifies this
      ensures Valid() && registerTypes == old(registerTypes)
      ensures ok <==> Patch(old(Contents()), index, target).Some?
      ensures ok ==> Contents() == Patch(old(Contents()), index, target).value
      ensures ok <==> index < |old(instructions)| && IsBranch(old(instructions)[index].op) && target < MAX_INSTRUCTIONS
      ensures ok ==> |instructions| == |old(instructions)| && Retargeted(old(instructions)[index], instructions[index], target)
      ensures ok ==> forall k | 0 <= k < |instructions| && k != index :: instructions[k] == old(instructions)[k]
      ensures locals == old(locals) && registerCount == old(registerCount)
    {
      if index >= |instructions| || target >= MAX_INSTRUCTIONS { return false; }
      var ins := instructions[index];
      if ins.op.Jump? { instructions := instructions[index := ins.(a := target)]; }
      else if ins.op.JumpIfFalse? { instructions := instructions[index := ins.(b := target)]; }
      else { return false; }
      ok := true;
    }

    /** The most recent binding, looked for from the end. */
    method FindBinding(id: nat) returns (local: Option<Local>)
      requires Valid()
      ensures local == FindLocal(locals, id)
    {
      if id == 0 { return None; }
      var i := |locals|;
      assert locals[..i] == locals;
      while i > 0
        invariant 0 <= i <= |locals|
        invariant FindLocal(locals, id) == FindLocal(locals[..i], id)
      {
        assert locals[..i][..i - 1] == locals[..i - 1];
        if locals[i - 1].id == id { return Some(locals[i - 1]); }
        i := i - 1;
      }
      local := None;
    }

    method BindLocal(id: nat, reg: nat, ty: Type) returns (ok: bool)
      requires Valid()
      modifies this
      ensures Valid() && registerTypes == old(registerTypes)
      ensures ok <==> Bind(old(Contents()), id, reg, ty).Some?
      ensures ok ==> Contents() == Bind(old(Contents()), id, reg, ty).value
      ensures ok <==> id != 0 && Unbound(old(locals), id) && |old(locals)| < MAX_REGISTERS
      ensures ok ==> FindLocal(locals, id) == Some(Local(id, reg, ty))
      ensures ok ==> forall other | other != id :: FindLocal(locals, other) == FindLocal(old(locals), other)
      ensures instructions == old(instructions) && registerCount == old(registerCount)
    {
      LoweringFacts.FindLocalCorrect(locals, id);
      var found := FindBinding(id);
      if id == 0 || found.Some? || |locals| >= MAX_REGISTERS { return false; }
      forall other: nat | other != id
        ensures FindLocal(locals + [Local(id, reg, ty)], other) == FindLocal(locals, other)
      {
        BindOther(locals, Local(id, reg, ty), other);
      }
      locals := locals + [Local(id, reg, ty)];
      ok := true;
    }

    method FindFunction(id: nat) returns (index: Option<nat>)
      ensures index == FunctionIndex(functions, id)
    {
      if id == 0 { return None; }
      for i := 0 to |functions|
        invariant IndexFrom(functions, id, 0) == IndexFrom(functions, id, i)
      {
        if functions[i].id == id { return Some(i); }
      }
      index := None;
    }

    /** A fresh register and the instruction that fills it. */
    method ProduceInstruction(ty: Type, op: Opcode, b: nat, c: nat, immediate: Double) returns (ok: bool, reg: nat)
      requires Valid()
      modifies this, registerTypes
      ensures Valid() && registerTypes == old(registerTypes)
      ensures ok <==> Produce(old(Contents()), ty, op, b, c, immediate).Some?
      ensures ok ==> Lowered(Contents(), reg) == Produce(old(Contents()), ty, op, b, c, immediate).value
    {
      ok, reg := AllocateRegister(ty);
      if ok {
        var index;
        ok, index := EmitInstruction(op, reg, b, c, immediate);
      }
    }

    method LowerExpression(e: Expr, depth: nat) returns (ok: bool, reg: nat)
      requires Valid()
      modifies this, registerTypes
      ensures Valid() && registerTypes == old(registerTypes)
      ensures ok <==> LowerExpr(fp, functions, old(Contents()), e, depth).Some?
      ensures ok ==> Lowered(Contents(), reg) == LowerExpr(fp, functions, old(Contents()), e, depth).value
      decreases e, 1
    {
      ok, reg := false, 0;
      if depth > MAX_DEPTH { return; }
      match e {
        case NumberLiteral(x) =>
          if fp.finite(x) { ok, reg := ProduceInstruction(Number, ConstF64, 0, 0, x); }
        case BooleanLiteral(b) =>
          ok, reg := ProduceInstruction(Boolean, ConstBool, 0, 0, if b then ONE else ZERO);
        case Variable(ty, id) =>
          var local := FindBinding(id);
          if local.Some? && local.value.ty == ty { ok, reg := true, local.value.reg; }
        case Binary(_, _, _, _) => ok, reg := LowerBinary(e, depth);
        case Call(_, _, _) => ok, reg := LowerCall(e, depth);
      }
    }

    method LowerBinary(e: Expr, depth: nat) returns (ok: bool, reg: nat)
      requires Valid() && e.Binary? && depth <= MAX_DEPTH
      modifies this, registerTypes
      ensures Valid() && registerTypes == old(registerTypes)
      ensures ok <==> LowerExpr(fp, functions, old(Contents()), e, depth).Some?
      ensures ok ==> Lowered(Contents(), reg) == LowerExpr(fp, functions, old(Contents()), e, depth).value
      decreases e, 0
    {
      ok, reg := false, 0;
      if !BinaryTypes(e.binaryType, e.op, e.left.Type(), e.right.Type()) { return; }
      var left, right;
      ok, left := LowerExpression(e.left, depth + 1);
      if !ok { return; }
      ok, right := LowerExpression(e.right, depth + 1);
      if !ok { return; }
      ok, reg := ProduceInstruction(e.binaryType, OpcodeOf(e.op), left, right, ZERO);
    }

    /** The arguments, one after the other; their registers are collected. */
    method LowerArguments(args: seq<Expr>, params: seq<Param>, depth: nat) returns (ok: bool, regs: seq<nat>)
      requires Valid() && |args| == |params|
      modifies this, registerTypes
      ensures Valid() && registerTypes == old(registerTypes)
      ensures ok <==> LowerArgs(fp, functions, old(Contents()), args, params, depth).Some?
      ensures ok ==> LoweredArgs(Contents(), regs) == LowerArgs(fp, functions, old(Contents()), args, params, depth).value
      decreases args
    {
      regs := [];
      assert args[0..] == args && params[0..] == params;
      PrependNone(LowerArgs(fp, functions, Contents(), args, params, depth));
      for i := 0 to |args|
        invariant Valid() && registerTypes == old(registerTypes) && |regs| == i
        invariant LowerArgs(fp, functions, old(Contents()), args, params, depth)
               == Prepend(regs, LowerArgs(fp, functions, Contents(), args[i..], params[i..], depth))
      {
        var reg;
        assert args[i..][1..] == args[i + 1..] && params[i..][1..] == params[i + 1..];
        if args[i].Type() != params[i].ty { return false, regs; }
        ghost var here := Contents();
        ok, reg := LowerExpression(args[i], depth);
        if !ok { return; }
        PrependMore(regs, reg, LowerArgs(fp, functions, Contents(), args[i + 1..], params[i + 1..], depth));
        regs := regs + [reg];
      }
      ok := true;
    }

    /** Consecutive fresh registers for the arguments. */
    method MoveArguments(params: seq<Param>, regs: seq<nat>) returns (ok: bool)
      requires Valid() && |params| == |regs|
      modifies this, registerTypes
      ensures Valid() && registerTypes == old(registerTypes)
      ensures ok <==> EmitMoves(old(Contents()), params, regs).Some?
      ensures ok ==> Contents() == EmitMoves(old(Contents()), params, regs).value
    {
      for i := 0 to |regs|
        invariant Valid() && registerTypes == old(registerTypes)
        invariant EmitMoves(old(Contents()), params, regs) == EmitMoves(Contents(), params[i..], regs[i..])
      {
        assert params[i..][1..] == params[i + 1..] && regs[i..][1..] == regs[i + 1..];
        var slot;
        ok, slot := ProduceInstruction(params[i].ty, Move, regs[i], 0, ZERO);
        if !ok { return; }
      }
      ok := true;
    }

    method LowerCall(e: Expr, depth: nat) returns (ok: bool, reg: nat)
      requires Valid() && e.Call? && depth <= MAX_DEPTH
      modifies this, registerTypes
      ensures Valid() && registerTypes == old(registerTypes)
      ensures ok <==> LowerExpr(fp, functions, old(Contents()), e, depth).Some?
      ensures ok ==> Lowered(Contents(), reg) == LowerExpr(fp, functions, old(Contents()), e, depth).value
      decreases e, 0
    {
      ok, reg := false, 0;
      var index := FindFunction(e.callee);
      if index.None? || index.value >= MAX_FUNCTIONS || index.value >= |functions| { return; }
      var callee := functions[index.value];
      if !callee.resolved || e.callType != callee.returnType || |e.args| != |callee.params| || |e.args| > MAX_REGISTERS {
        return;
      }
      var regs;
      ok, regs := LowerArguments(e.args, callee.params, depth + 1);
      if !ok { return; }
      var base := registerCount;
      ok := MoveArguments(callee.params, regs);
      if !ok { return; }
      ok, reg := ProduceInstruction(e.callType, Opcode.Call, index.value, base, fp.ofWhole(|e.args|));
    }

    // ----- statements -----

    method LowerStatement(ret: Type, s: Stmt, depth: nat) returns (ok: bool, ends: bool)
      requires Valid()
      modifies this, registerTypes
      ensures Valid() && registerTypes == old(registerTypes)
      ensures ok <==> LowerStmt(fp, functions, ret, old(Contents()), s, depth).Some?
      ensures ok ==> LoweredBody(Contents(), ends) == LowerStmt(fp, functions, ret, old(Contents()), s, depth).value
      decreases s, 1
    {
      ok, ends := false, false;
      if depth > MAX_DEPTH { return; }
      match s {
        case Declare(ty, id, init) => ok := LowerDeclaration(ret, s, depth);
        case Assign(ty, id, value) =>
          var local := FindBinding(id);
          if local.None? || local.value.ty != ty || value.Type() != local.value.ty { return; }
          var source, index;
          ok, source := LowerExpression(value, 0);
          if !ok { return; }
          ok, index := EmitInstruction(Move, local.value.reg, source, 0, ZERO);
        case Return(ty, result) =>
          if ty != ret || result.Type() != ty { return; }
          var source, index;
          ok, source := LowerExpression(result, 0);
          if !ok { return; }
          ok, index := EmitInstruction(Opcode.Return, source, 0, 0, ZERO);
          ends := true;
        case If(_, _, _) => ok, ends := LowerConditional(ret, s, depth);
      }
    }

    method LowerDeclaration(ret: Type, s: Stmt, depth: nat) returns (ok: bool)
      requires Valid() && s.Declare? && depth <= MAX_DEPTH
      modifies this, registerTypes
      ensures Valid() && registerTypes == old(registerTypes)
      ensures ok <==> LowerStmt(fp, functions, ret, old(Contents()), s, depth).Some?
      ensures ok ==> LoweredBody(Contents(), false) == LowerStmt(fp, functions, ret, old(Contents()), s, depth).value
    {
      if s.init.Type() != s.declareType { return false; }
      var destination, source, index;
      ok, destination := AllocateRegister(s.declareType);
      if !ok { return; }
      ok := BindLocal(s.id, destination, s.declareType);
      if !ok { return; }
      ok, source := LowerExpression(s.init, 0);
      if !ok { return; }
      ok, index := EmitInstruction(Move, destination, source, 0, ZERO);
    }

    /** Branches are emitted with an open target and patched when the target is known. */
    method LowerConditional(ret: Type, s: Stmt, depth: nat) returns (ok: bool, ends: bool)
      requires Valid() && s.If? && depth <= MAX_DEPTH
      modifies this, registerTypes
      ensures Valid() && registerTypes == old(registerTypes)
      ensures ok <==> LowerStmt(fp, functions, ret, old(Contents()), s, depth).Some?
      ensures ok ==> LoweredBody(Contents(), ends) == LowerStmt(fp, functions, ret, old(Contents()), s, depth).value
      decreases s, 0
    {
      ok, ends := false, false;
      if s.cond.Type() != Boolean { return; }
      var condition, falseBranch;
      ok, condition := LowerExpression(s.cond, 0);
      if !ok { return; }
      ok, falseBranch := EmitInstruction(JumpIfFalse, condition, UINT32_MAX, 0, ZERO);
      if !ok { return; }
      var thenEnds;
      ok, thenEnds := LowerStatements(ret, s.thenBody, depth + 1);
      if !ok { return; }
      var endBranch: Option<nat> := None;
      if s.elseBody != [] && !thenEnds {
        var index;
        ok, index := EmitInstruction(Jump, UINT32_MAX, 0, 0, ZERO);
        if !ok { return; }
        endBranch := Some(index);
      }
      ok := PatchTarget(falseBranch, |instructions|);
      if !ok { return; }
      var elseEnds := false;
      if s.elseBody != [] {
        ok, elseEnds := LowerStatements(ret, s.elseBody, depth + 1);
        if !ok { return; }
      }
      if endBranch.Some? {
        ok := PatchTarget(endBranch.value, |instructions|);
        if !ok { return; }
      }
      ends := s.elseBody != [] && thenEnds && elseEnds;
    }

    /** Nothing may follow a statement that always returns. */
    method LowerStatements(ret: Type, ss: seq<Stmt>, depth: nat) returns (ok: bool, ends: bool)
      requires Valid()
      modifies this, registerTypes
      ensures Valid() && registerTypes == old(registerTypes)
      ensures ok <==> LowerList(fp, functions, ret, old(Contents()), ss, depth).Some?
      ensures ok ==> LoweredBody(Contents(), ends) == LowerList(fp, functions, ret, old(Contents()), ss, depth).value
      decreases ss
    {
      ends := false;
      for i := 0 to |ss|
        invariant Valid() && registerTypes == old(registerTypes)
        invariant LowerList(fp, functions, ret, old(Contents()), ss, depth)
               == Remaining(fp, functions, ret, Contents(), ss[i..], depth, ends)
      {
        if ends { return false, ends; }
        assert ss[i..][1..] == ss[i + 1..];
        ok, ends := LowerStatement(ret, ss[i], depth);
        if !ok { return; }
      }
      ok := true;
    }

    // ----- functions -----

    method LowerParameters(params: seq<Param>) returns (ok: bool)
      requires Valid()
      modifies this, registerTypes
      ensures Valid() && registerTypes == old(registerTypes)
      ensures ok <==> LowerParams(old(Contents()), params).Some?
      ensures ok ==> Contents() == LowerParams(old(Contents()), params).value
    {
      for i := 0 to |params|
        invariant Valid() && registerTypes == old(registerTypes)
        invariant LowerParams(old(Contents()), params) == LowerParams(Contents(), params[i..])
      {
        assert params[i..][1..] == params[i + 1..];
        var reg;
        ok, reg := AllocateRegister(params[i].ty);
        if !ok { return; }
        ok := BindLocal(params[i].id, reg, params[i].ty);
        if !ok { return; }
      }
      ok := true;
    }

    method LowerOne(f: nat) returns (ok: bool)
      requires Valid() && f < |functions|
      modifies this, registerTypes
      ensures Valid() && registerTypes == old(registerTypes)
      ensures ok <==> LowerFunction(fp, functions, old(Contents()), f).Some?
      ensures ok ==> Contents() == LowerFunction(fp, functions, old(Contents()), f).value
    {
      var current := functions[f];
      if |current.params| > MAX_REGISTERS { return false; }
      var index;
      ok, index := EmitInstruction(FunctionMark, f, registerCount, |current.params|, ZERO);
      if !ok { return; }
      locals := [];
      ok := LowerParameters(current.params);
      if !ok { return; }
      var ends;
      ok, ends := LowerStatements(current.returnType, current.body, 0);
      ok := ok && ends;
    }

    method LowerAll() returns (ok: bool)
      requires Valid() && Contents() == Draft([], [], [])
      modifies this, registerTypes
      ensures Valid() && registerTypes == old(registerTypes)
      ensures ok <==> LowerFirst(fp, functions, |functions|).Some?
      ensures ok ==> Contents() == LowerFirst(fp, functions, |functions|).value
    {
      for f := 0 to |functions|
        invariant Valid() && registerTypes == old(registerTypes)
        invariant LowerFirst(fp, functions, f) == Some(Contents())
      {
        ok := LowerOne(f);
        if !ok {
          FirstFails(fp, functions, f + 1, |functions|);
          return;
        }
      }
      ok := true;
    }
  }

  lemma {:induction false} FirstFails(fp: FloatModel, fns: seq<Function>, k: nat, n: nat)
    requires k <= n <= |fns| && LowerFirst(fp, fns, k).None?
    ensures LowerFirst(fp, fns, n).None?
    decreases n
  {
    if k < n { FirstFails(fp, fns, k, n - 1); }
  }

  /** The result for a whole argument list, given the registers of its beginning. */
  function Prepend(regs: seq<nat>, r: Option<LoweredArgs>): Option<LoweredArgs> {
    if r.None? then None else Some(LoweredArgs(r.value.draft, regs + r.value.regs))
  }

  lemma {:induction false} PrependNone(r: Option<LoweredArgs>)
    ensures Prepend([], r) == r
  {
    if r.Some? { assert [] + r.value.regs == r.value.regs; }
  }

  lemma {:induction false} PrependMore(regs: seq<nat>, reg: nat, r: Option<LoweredArgs>)
    ensures r.Some? ==> Prepend(regs, Some(LoweredArgs(r.value.draft, [reg] + r.value.regs))) == Prepend(regs + [reg], r)
  {
    if r.Some? { assert regs + ([reg] + r.value.regs) == (regs + [reg]) + r.value.regs; }
  }

  /** What is left of a statement list after a statement that ended in this way. */
  function Remaining(
      fp: FloatModel, fns: seq<Function>, ret: Type, s: Draft, ss: seq<Stmt>, depth: nat, ends: bool): Option<LoweredBody>
  {
    if ss == [] then Some(LoweredBody(s, ends))
    else if ends then None
    else LowerList(fp, fns, ret, s, ss, depth)
  }

  // ----- which functions, and in what order -----

  method OrderFunctions(hir: ScalarHir) returns (ordered: Option<seq<Function>>)
    ensures ordered.Some? <==> Admitted(hir)
    ensures ordered.Some? ==> ordered.value == Ordered(hir)
  {
    var fns := hir.functions;
    if hir.globals != [] || |fns| == 0 || |fns| > MAX_FUNCTIONS { return None; }
    var principal: Option<nat> := None;
    for i := 0 to |fns|
      invariant forall k | 0 <= k < i :: SignatureOk(fns[k])
      invariant forall k, l | 0 <= k < l < i :: fns[k].id != fns[l].id && !(Compiler.Named(fns[k]) && Compiler.Named(fns[l]))
      invariant principal.None? ==> forall k | 0 <= k < i :: !Compiler.Named(fns[k])
      invariant principal.Some? ==> principal.value < i && Compiler.Named(fns[principal.value])
    {
      if !SignatureOk(fns[i]) { return None; }
      if Compiler.Named(fns[i]) {
        if principal.Some? { return None; }
        principal := Some(i);
      }
      for j := 0 to i
        invariant forall k | 0 <= k < j :: fns[k].id != fns[i].id
      {
        if fns[j].id == fns[i].id { return None; }
      }
    }
    if principal.None? || fns[principal.value].params != [] || fns[principal.value].returnType != Number { return None; }
    var list := EntryFirst(fns, principal.value);
    assert PrincipalFrom(fns, 0).value == principal.value;
    ordered := Some(list);
  }

  method EntryFirst(fns: seq<Function>, p: nat) returns (list: seq<Function>)
    requires p < |fns|
    ensures list == [fns[p]] + fns[..p] + fns[p + 1..]
  {
    list := [fns[p]];
    for i := 0 to |fns|
      invariant list == [fns[p]] + (if i <= p then fns[..i] else fns[..p] + fns[p + 1..i])
    {
      if i != p { list := list + [fns[i]]; }
    }
    assert fns[p + 1..|fns|] == fns[p + 1..];
    assert list == [fns[p]] + fns[..p] + fns[p + 1..];
  }

  // ----- the call graph -----

  /** The callees noted for function f. */
  ghost function RowOf(edges: array2<bool>, f: nat): set<nat>
    requires f < edges.Length0
    reads edges
  {
    set h: nat | h < edges.Length1 && edges[f, h]
  }

  ghost predicate Square(edges: array2<bool>) { edges.Length0 == MAX_FUNCTIONS && edges.Length1 == MAX_FUNCTIONS }

  method FindLast(fns: seq<Function>, id: nat) returns (target: Option<nat>)
    ensures target == LastIndex(fns, id, |fns|)
  {
    target := None;
    for i := 0 to |fns|
      invariant target == LastIndex(fns, id, i)
    {
      if fns[i].id == id { target := Some(i); }
    }
  }

  /** Notes the calls of an expression in the caller's row. */
  method GraphExpression(fns: seq<Function>, edges: array2<bool>, caller: nat, e: Expr, depth: nat) returns (ok: bool)
    requires Square(edges) && caller < |fns| <= MAX_FUNCTIONS
    modifies edges
    ensures ok <==> ExprCallees(fns, e, depth).Some?
    ensures ok ==> RowOf(edges, caller) == old(RowOf(edges, caller)) + ExprCallees(fns, e, depth).value
    ensures forall f | 0 <= f < MAX_FUNCTIONS && f != caller :: RowOf(edges, f) == old(RowOf(edges, f))
    decreases e, 1
  {
    if depth > MAX_DEPTH { return false; }
    ok := true;
    if e.Call? {
      var target := FindLast(fns, e.callee);
      if target.None? { return false; }
      edges[caller, target.value] := true;
      assert RowOf(edges, caller) == old(RowOf(edges, caller)) + {target.value};
      ok := GraphArguments(fns, edges, caller, e.args, depth + 1);
    } else if e.Binary? {
      ok := GraphExpression(fns, edges, caller, e.left, depth + 1);
      if ok { ok := GraphExpression(fns, edges, caller, e.right, depth + 1); }
    }
  }

  /** The result for a whole list, given the callees of its beginning. */
  function Plus(done: set<nat>, rest: Option<set<nat>>): Option<set<nat>> {
    if rest.None? then None else Some(done + rest.value)
  }

  method GraphArguments(fns: seq<Function>, edges: array2<bool>, caller: nat, args: seq<Expr>, depth: nat) returns (ok: bool)
    requires Square(edges) && caller < |fns| <= MAX_FUNCTIONS
    modifies edges
    ensures ok <==> ArgsCallees(fns, args, depth).Some?
    ensures ok ==> RowOf(edges, caller) == old(RowOf(edges, caller)) + ArgsCallees(fns, args, depth).value
    ensures forall f | 0 <= f < MAX_FUNCTIONS && f != caller :: RowOf(edges, f) == old(RowOf(edges, f))
    decreases args, 0
  {
    ghost var done: set<nat> := {};
    assert args[0..] == args;
    PlusNone(ArgsCallees(fns, args, depth));
    for i := 0 to |args|
      invariant Plus(done, ArgsCallees(fns, args[i..], depth)) == ArgsCallees(fns, args, depth)
      invariant RowOf(edges, caller) == old(RowOf(edges, caller)) + done
      invariant forall f | 0 <= f < MAX_FUNCTIONS && f != caller :: RowOf(edges, f) == old(RowOf(edges, f))
    {
      assert args[i..][1..] == args[i + 1..];
      ok := GraphExpression(fns, edges, caller, args[i], depth);
      if !ok { return; }
      ghost var row := ExprCallees(fns, args[i], depth).value;
      PlusMore(done, row, ArgsCallees(fns, args[i + 1..], depth));
      done := done + row;
    }
    ok := true;
  }

  lemma {:induction false} PlusNone(rest: Option<set<nat>>)
    ensures Plus({}, rest) == rest
  {
    if rest.Some? { assert {} + rest.value == rest.value; }
  }

  lemma {:induction false} PlusMore(done: set<nat>, row: set<nat>, rest: Option<set<nat>>)
    ensures rest.Some? ==> Plus(done, Some(row + rest.value)) == Plus(done + row, rest)
  {
    if rest.Some? { assert done + (row + rest.value) == (done + row) + rest.value; }
  }

  method GraphStatement(fns: seq<Function>, edges: array2<bool>, caller: nat, s: Stmt, depth: nat) returns (ok: bool)
    requires Square(edges) && caller < |fns| <= MAX_FUNCTIONS
    modifies edges
    ensures ok <==> StmtCallees(fns, s, depth).Some?
    ensures ok ==> RowOf(edges, caller) == old(RowOf(edges, caller)) + StmtCallees(fns, s, depth).value
    ensures forall f | 0 <= f < MAX_FUNCTIONS && f != caller :: RowOf(edges, f) == old(RowOf(edges, f))
    decreases s, 0
  {
    match s {
      case Declare(_, _, init) => ok := GraphExpression(fns, edges, caller, init, depth + 1);
      case Assign(_, _, value) => ok := GraphExpression(fns, edges, caller, value, depth + 1);
      case Return(_, result) => ok := GraphExpression(fns, edges, caller, result, depth + 1);
      case If(cond, thenBody, elseBody) =>
        ok := GraphExpression(fns, edges, caller, cond, depth + 1);
        if ok { ok := GraphStatements(fns, edges, caller, thenBody, depth + 1); }
        if ok { ok := GraphStatements(fns, edges, caller, elseBody, depth + 1); }
    }
  }

  method GraphStatements(fns: seq<Function>, edges: array2<bool>, caller: nat, ss: seq<Stmt>, depth: nat) returns (ok: bool)
    requires Square(edges) && caller < |fns| <= MAX_FUNCTIONS
    modifies edges
    ensures ok <==> ListCallees(fns, ss, depth).Some?
    ensures ok ==> RowOf(edges, caller) == old(RowOf(edges, caller)) + ListCallees(fns, ss, depth).value
    ensures forall f | 0 <= f < MAX_FUNCTIONS && f != caller :: RowOf(edges, f) == old(RowOf(edges, f))
    decreases ss, 0
  {
    if depth > MAX_DEPTH { return false; }
    ghost var done: set<nat> := {};
    assert ss[0..] == ss;
    PlusNone(ListCallees(fns, ss, depth));
    for i := 0 to |ss|
      invariant Plus(done, ListCallees(fns, ss[i..], depth)) == ListCallees(fns, ss, depth)
      invariant RowOf(edges, caller) == old(RowOf(edges, caller)) + done
      invariant forall f | 0 <= f < MAX_FUNCTIONS && f != caller :: RowOf(edges, f) == old(RowOf(edges, f))
    {
      assert ss[i..][1..] == ss[i + 1..];
      ok := GraphStatement(fns, edges, caller, ss[i], depth);
      if !ok { return; }
      ghost var row := StmtCallees(fns, ss[i], depth).value;
      PlusMore(done, row, ListCallees(fns, ss[i + 1..], depth));
      done := done + row;
    }
    ok := true;
  }

  /** All rows of the matrix. */
  method BuildGraph(fns: seq<Function>, edges: array2<bool>) returns (ok: bool)
    requires Square(edges) && 0 < |fns| <= MAX_FUNCTIONS
    requires forall f | 0 <= f < MAX_FUNCTIONS :: RowOf(edges, f) == {}
    modifies edges
    ensures ok <==> SourceGraph(fns, |fns|).Some?
    ensures ok ==> GraphOf(edges, |fns|) == SourceGraph(fns, |fns|).value
  {
    ghost var rows: Graph := [];
    for f := 0 to |fns|
      invariant SourceGraph(fns, f) == Some(rows) && |rows| == f
      invariant forall k | 0 <= k < f :: RowOf(edges, k) == rows[k]
      invariant forall k | f <= k < MAX_FUNCTIONS :: RowOf(edges, k) == {}
    {
      ok := GraphStatements(fns, edges, f, fns[f].body, 0);
      if !ok {
        GraphFails(fns, f + 1, |fns|);
        return;
      }
      rows := rows + [ListCallees(fns, fns[f].body, 0).value];
    }
    forall f | 0 <= f < |fns|
      ensures GraphOf(edges, |fns|)[f] == rows[f]
    {
      CalleesBelow(fns, fns[f].body, 0);
      assert rows[f] == RowOf(edges, f);
    }
    assert GraphOf(edges, |fns|) == rows;
    ok := true;
  }

  lemma {:induction false} GraphFails(fns: seq<Function>, k: nat, n: nat)
    requires k <= n <= |fns| && SourceGraph(fns, k).None?
    ensures SourceGraph(fns, n).None?
    decreases n
  {
    if k < n { GraphFails(fns, k, n - 1); }
  }

  ghost predicate AllBelow(row: Option<set<nat>>, n: nat) { row.Some? ==> forall h | h in row.value :: h < n }

  lemma {:induction false} CalleesBelow(fns: seq<Function>, ss: seq<Stmt>, depth: nat)
    ensures AllBelow(ListCallees(fns, ss, depth), |fns|)
    decreases ss, 0
  {
    if ss != [] {
      StmtCalleesBelow(fns, ss[0], depth);
      CalleesBelow(fns, ss[1..], depth);
    }
  }

  lemma {:induction false} StmtCalleesBelow(fns: seq<Function>, s: Stmt, depth: nat)
    ensures AllBelow(StmtCallees(fns, s, depth), |fns|)
    decreases s, 0
  {
    match s
    case Declare(_, _, init) => ExprCalleesBelow(fns, init, depth + 1);
    case Assign(_, _, value) => ExprCalleesBelow(fns, value, depth + 1);
    case Return(_, result) => ExprCalleesBelow(fns, result, depth + 1);
    case If(cond, thenBody, elseBody) =>
      ExprCalleesBelow(fns, cond, depth + 1);
      CalleesBelow(fns, thenBody, depth + 1);
      CalleesBelow(fns, elseBody, depth + 1);
  }

  lemma {:induction false} ExprCalleesBelow(fns: seq<Function>, e: Expr, depth: nat)
    ensures AllBelow(ExprCallees(fns, e, depth), |fns|)
    decreases e, 0
  {
    match e
    case Binary(_, _, left, right) =>
      ExprCalleesBelow(fns, left, depth + 1);
      ExprCalleesBelow(fns, right, depth + 1);
    case Call(_, callee, args) => ArgsCalleesBelow(fns, args, depth + 1);
    case _ =>
  }

  lemma {:induction false} ArgsCalleesBelow(fns: seq<Function>, args: seq<Expr>, depth: nat)
    ensures AllBelow(ArgsCallees(fns, args, depth), |fns|)
    decreases args, 0
  {
    if args != [] {
      ExprCalleesBelow(fns, args[0], depth);
      ArgsCalleesBelow(fns, args[1..], depth);
    }
  }

  // ----- the whole compiler -----

  /** Order, call graph, lowering: the result is that of the specification, and there is one exactly for the programs
      that fit. */
  method CompileHir(fp: FloatModel, hir: ScalarHir) returns (p: Option<Bytecode.Program>)
    ensures p == Compile(fp, hir)
    ensures p.Some? <==> Compilable.Fits(fp, hir)
  {
    Compilable.CompilesIff(fp, hir);
    var ordered := OrderFunctions(hir);
    if ordered.None? { return None; }
    var fns := ordered.value;
    assert |fns| == |hir.functions|;
    var edges := new bool[MAX_FUNCTIONS, MAX_FUNCTIONS]((_, _) => false);
    var ok := BuildGraph(fns, edges);
    if !ok { return None; }
    ok := VisitAll(edges, |fns|);
    if !ok { return None; }
    p := LowerProgram(fp, fns);
  }

  method LowerProgram(fp: FloatModel, fns: seq<Function>) returns (p: Option<Bytecode.Program>)
    ensures p.Some? <==> LowerFirst(fp, fns, |fns|).Some?
    ensures p.Some? ==> p.value == ProgramOf(fns, LowerFirst(fp, fns, |fns|).value)
  {
    var lowering := new LoweringState(fp, fns);
    var ok := lowering.LowerAll();
    if !ok { return None; }
    var tags := [];
    for f := 0 to |fns|
      invariant tags == ReturnTags(fns)[..f]
    {
      tags := tags + [Tag(fns[f].returnType)];
    }
    assert tags == ReturnTags(fns);
    p := Some(Bytecode.Program(TYPED_MINOR, lowering.registerCount, lowering.instructions,
                               lowering.registerTypes[..lowering.registerCount], tags));
  }
}
