/** What every successful lowering guarantees about the code it appends: operands in range, types
    that agree, branches that go forward. */
module LoweringFacts {
  import opened Wrappers
  import opened Floats
  import opened Hir
  import opened Bytecode
  import opened Lowering

  ghost predicate Extends(s: Draft, t: Draft) { s.code <= t.code && s.types <= t.types }

  /** Within the limits of the format, and every register has a type. */
  ghost predicate Small(s: Draft) {
    && |s.code| <= MAX_INSTRUCTIONS && |s.types| <= MAX_REGISTERS
    && forall r | 0 <= r < |s.types| :: IsTag(s.types[r])
  }

  /** Bindings of the function whose registers start at `base`. */
  ghost predicate LocalsOk(s: Draft, base: nat) {
    && base <= |s.types|
    && (forall i | 0 <= i < |s.locals| ::
          && s.locals[i].id != 0
          && base <= s.locals[i].reg < |s.types|
          && s.types[s.locals[i].reg] == Tag(s.locals[i].ty))
    && (forall i, j | 0 <= i < j < |s.locals| ::
          s.locals[i].id != s.locals[j].id && s.locals[i].reg != s.locals[j].reg)
  }

  /** An instruction of an expression, checked against the register types and the signatures. */
  ghost predicate ExprIns(fp: FloatModel, fns: seq<Function>, types: seq<nat>, ins: Instruction) {
    && ins.a < |types|
    && match ins.op
       case ConstF64 => ins.b == 0 && ins.c == 0 && types[ins.a] == NUMBER_TAG && fp.finite(ins.imm)
       case ConstBool => ins.b == 0 && ins.c == 0 && types[ins.a] == BOOLEAN_TAG && (ins.imm == ZERO || ins.imm == ONE)
       case Move => ins.c == 0 && ins.imm == ZERO && ins.b < |types| && types[ins.a] == types[ins.b]
       case Calc(_) =>
         && ins.imm == ZERO && ins.b < |types| && ins.c < |types|
         && types[ins.a] == types[ins.b] == types[ins.c] == NUMBER_TAG
       case Test(op) =>
         && ins.imm == ZERO && ins.b < |types| && ins.c < |types|
         && types[ins.a] == BOOLEAN_TAG && types[ins.b] == types[ins.c]
         && (types[ins.b] == NUMBER_TAG || op.Equal? || op.NotEqual?)
       case Call => CallIns(fp, fns, types, ins)
       case _ => false
  }

  ghost predicate CallIns(fp: FloatModel, fns: seq<Function>, types: seq<nat>, ins: Instruction)
    requires ins.a < |types|
  {
    && ins.b < |fns| && ins.b < MAX_FUNCTIONS
    && var params := fns[ins.b].params;
    && |params| <= MAX_REGISTERS && ins.imm == fp.ofWhole(|params|)
    && types[ins.a] == Tag(fns[ins.b].returnType)
    && ins.c + |params| <= |types|
    && forall i | 0 <= i < |params| :: types[ins.c + i] == Tag(params[i].ty)
  }

  ghost predicate ExprCode(fp: FloatModel, fns: seq<Function>, s: Draft, from: nat) {
    forall pc | from <= pc < |s.code| :: ExprIns(fp, fns, s.types, s.code[pc])
  }

  lemma {:induction false} ExprInsExtends(fp: FloatModel, fns: seq<Function>, types: seq<nat>, more: seq<nat>, ins: Instruction)
    requires types <= more && ExprIns(fp, fns, types, ins)
    ensures ExprIns(fp, fns, more, ins)
  {
  }

  /** Code checked before an extension stays checked after it. */
  lemma {:induction false} ExprCodeExtends(fp: FloatModel, fns: seq<Function>, s: Draft, t: Draft, from: nat)
    requires Extends(s, t) && ExprCode(fp, fns, s, from)
    requires forall pc | |s.code| <= pc < |t.code| :: ExprIns(fp, fns, t.types, t.code[pc])
    ensures ExprCode(fp, fns, t, from)
  {
    forall pc | from <= pc < |t.code|
      ensures ExprIns(fp, fns, t.types, t.code[pc])
    {
      if pc < |s.code| { ExprInsExtends(fp, fns, s.types, t.types, s.code[pc]); }
    }
  }

  lemma {:induction false} FindLocalCorrect(locals: seq<Local>, id: nat)
    ensures FindLocal(locals, id).Some? ==>
              exists i :: 0 <= i < |locals| && locals[i] == FindLocal(locals, id).value && locals[i].id == id
    ensures FindLocal(locals, id).None? && id != 0 ==> forall i | 0 <= i < |locals| :: locals[i].id != id
    decreases |locals|
  {
    if id != 0 && locals != [] {
      var n := |locals| - 1;
      if locals[n].id == id { assert locals[n] == FindLocal(locals, id).value; }
      else {
        FindLocalCorrect(locals[..n], id);
        if FindLocal(locals[..n], id).Some? {
          var i :| 0 <= i < n && locals[..n][i] == FindLocal(locals[..n], id).value && locals[..n][i].id == id;
          assert locals[i] == FindLocal(locals, id).value;
        }
      }
    }
  }

  lemma {:induction false} IndexFromCorrect(fns: seq<Function>, id: nat, from: nat)
    ensures IndexFrom(fns, id, from).Some? ==>
              from <= IndexFrom(fns, id, from).value < |fns| && fns[IndexFrom(fns, id, from).value].id == id
    decreases |fns| - from
  {
    if from < |fns| && fns[from].id != id { IndexFromCorrect(fns, id, from + 1); }
  }

  ghost predicate ExprOk(fp: FloatModel, fns: seq<Function>, s: Draft, base: nat, ty: Type, r: Lowered) {
    && Extends(s, r.draft) && Small(r.draft)
    && r.draft.locals == s.locals
    && base <= r.reg < |r.draft.types| && r.draft.types[r.reg] == Tag(ty)
    && ExprCode(fp, fns, r.draft, |s.code|)
  }

  /** A produced instruction joins code that is already checked. */
  lemma {:induction false} ProduceOk(
      fp: FloatModel, fns: seq<Function>, s: Draft, t: Draft, base: nat, ty: Type,
      op: Opcode, b: nat, c: nat, imm: Double)
    requires Extends(s, t) && Small(t) && t.locals == s.locals && base <= |t.types|
    requires ExprCode(fp, fns, t, |s.code|)
    requires Produce(t, ty, op, b, c, imm).Some?
    requires ExprIns(fp, fns, t.types + [Tag(ty)], Instruction(op, |t.types|, b, c, imm))
    ensures ExprOk(fp, fns, s, base, ty, Produce(t, ty, op, b, c, imm).value)
  {
    ExprCodeExtends(fp, fns, t, Produce(t, ty, op, b, c, imm).value.draft, |s.code|);
  }

  lemma {:induction false} LocalsOkExtends(s: Draft, t: Draft, base: nat)
    requires LocalsOk(s, base) && s.types <= t.types && s.locals == t.locals
    ensures LocalsOk(t, base)
  {
  }

  lemma {:induction false} LowerExprOk(
      fp: FloatModel, fns: seq<Function>, s: Draft, base: nat, e: Expr, depth: nat)
    requires fp.WellBehaved()
    requires LocalsOk(s, base) && Small(s)
    requires LowerExpr(fp, fns, s, e, depth).Some?
    ensures ExprOk(fp, fns, s, base, e.Type(), LowerExpr(fp, fns, s, e, depth).value)
    decreases e, 1
  {
    match e
    case NumberLiteral(x) => ProduceOk(fp, fns, s, s, base, Number, ConstF64, 0, 0, x);
    case BooleanLiteral(b) => ProduceOk(fp, fns, s, s, base, Boolean, ConstBool, 0, 0, Truth(b));
    case Variable(ty, id) => FindLocalCorrect(s.locals, id);
    case Binary(ty, op, left, right) =>
      LowerOperandsOk(fp, fns, s, base, e, depth + 1);
      var x := LowerExpr(fp, fns, s, left, depth + 1).value;
      var y := LowerExpr(fp, fns, x.draft, right, depth + 1).value;
      ProduceOk(fp, fns, s, y.draft, base, ty, OpcodeOf(op), x.reg, y.reg, ZERO);
    case Call(ty, callee, args) => LowerCallOk(fp, fns, s, base, e, depth);
  }

  lemma {:induction false} LowerCallOk(
      fp: FloatModel, fns: seq<Function>, s: Draft, base: nat, e: Expr, depth: nat)
    requires fp.WellBehaved() && e.Call?
    requires LocalsOk(s, base) && Small(s)
    requires LowerExpr(fp, fns, s, e, depth).Some?
    ensures ExprOk(fp, fns, s, base, e.Type(), LowerExpr(fp, fns, s, e, depth).value)
    decreases e, 0
  {
    IndexFromCorrect(fns, e.callee, 0);
    var g := FunctionIndex(fns, e.callee).value;
    var params := fns[g].params;
    LowerMovedOk(fp, fns, s, base, e.args, params, depth + 1);
    var xs := LowerArgs(fp, fns, s, e.args, params, depth + 1).value;
    var moved := EmitMoves(xs.draft, params, xs.regs).value;
    ProduceOk(fp, fns, s, moved, base, e.callType, Opcode.Call, g, |xs.draft.types|, fp.ofWhole(|e.args|));
  }

  /** Both operands of an operator, one after the other. */
  lemma {:induction false} LowerOperandsOk(
      fp: FloatModel, fns: seq<Function>, s: Draft, base: nat, e: Expr, depth: nat)
    requires fp.WellBehaved() && e.Binary?
    requires LocalsOk(s, base) && Small(s)
    requires LowerExpr(fp, fns, s, e.left, depth).Some?
    requires LowerExpr(fp, fns, LowerExpr(fp, fns, s, e.left, depth).value.draft, e.right, depth).Some?
    ensures var x := LowerExpr(fp, fns, s, e.left, depth).value;
            var y := LowerExpr(fp, fns, x.draft, e.right, depth).value;
            && ExprOk(fp, fns, s, base, e.left.Type(), x) && LocalsOk(x.draft, base)
            && ExprOk(fp, fns, x.draft, base, e.right.Type(), y) && LocalsOk(y.draft, base)
            && ExprCode(fp, fns, y.draft, |s.code|)
    decreases e, 0
  {
    var x := LowerExpr(fp, fns, s, e.left, depth).value;
    LowerExprOk(fp, fns, s, base, e.left, depth);
    LocalsOkExtends(s, x.draft, base);
    var y := LowerExpr(fp, fns, x.draft, e.right, depth).value;
    LowerExprOk(fp, fns, x.draft, base, e.right, depth);
    LocalsOkExtends(x.draft, y.draft, base);
    ExprCodeExtends(fp, fns, x.draft, y.draft, |s.code|);
  }

  /** The arguments of a call, and their copies in consecutive registers. */
  lemma {:induction false} LowerMovedOk(
      fp: FloatModel, fns: seq<Function>, s: Draft, base: nat, args: seq<Expr>, params: seq<Param>, depth: nat)
    requires fp.WellBehaved()
    requires LocalsOk(s, base) && Small(s) && |args| == |params|
    requires LowerArgs(fp, fns, s, args, params, depth).Some?
    requires var xs := LowerArgs(fp, fns, s, args, params, depth).value;
             EmitMoves(xs.draft, params, xs.regs).Some?
    ensures var xs := LowerArgs(fp, fns, s, args, params, depth).value;
            var moved := EmitMoves(xs.draft, params, xs.regs).value;
            && ArgsOk(fp, fns, s, base, params, xs) && MovesOk(fp, fns, xs.draft, params, moved)
            && ExprCode(fp, fns, moved, |s.code|)
            && LocalsOk(xs.draft, base) && LocalsOk(moved, base)
    decreases args, 1
  {
    var xs := LowerArgs(fp, fns, s, args, params, depth).value;
    LowerArgsOk(fp, fns, s, base, args, params, depth);
    var moved := EmitMoves(xs.draft, params, xs.regs).value;
    EmitMovesOk(fp, fns, xs.draft, params, xs.regs);
    ExprCodeExtends(fp, fns, xs.draft, moved, |s.code|);
    LocalsOkExtends(s, xs.draft, base);
    LocalsOkExtends(xs.draft, moved, base);
  }

  ghost predicate ArgsOk(fp: FloatModel, fns: seq<Function>, s: Draft, base: nat, params: seq<Param>, r: LoweredArgs) {
    && Extends(s, r.draft) && Small(r.draft)
    && r.draft.locals == s.locals
    && |r.regs| == |params|
    && (forall i | 0 <= i < |r.regs| ::
          base <= r.regs[i] < |r.draft.types| && r.draft.types[r.regs[i]] == Tag(params[i].ty))
    && ExprCode(fp, fns, r.draft, |s.code|)
  }

  lemma {:induction false} LowerArgsOk(
      fp: FloatModel, fns: seq<Function>, s: Draft, base: nat, args: seq<Expr>, params: seq<Param>, depth: nat)
    requires fp.WellBehaved()
    requires LocalsOk(s, base) && Small(s) && |args| == |params|
    requires LowerArgs(fp, fns, s, args, params, depth).Some?
    ensures ArgsOk(fp, fns, s, base, params, LowerArgs(fp, fns, s, args, params, depth).value)
    decreases args, 0
  {
    if args != [] {
      var x := LowerExpr(fp, fns, s, args[0], depth).value;
      LowerExprOk(fp, fns, s, base, args[0], depth);
      var xs := LowerArgs(fp, fns, x.draft, args[1..], params[1..], depth).value;
      LowerArgsOk(fp, fns, x.draft, base, args[1..], params[1..], depth);
      ExprCodeExtends(fp, fns, x.draft, xs.draft, |s.code|);
    }
  }

  ghost predicate MovesOk(fp: FloatModel, fns: seq<Function>, s: Draft, params: seq<Param>, t: Draft) {
    && Extends(s, t) && Small(t) && t.locals == s.locals
    && |t.types| == |s.types| + |params| && |t.code| == |s.code| + |params|
    && (forall i | 0 <= i < |params| :: t.types[|s.types| + i] == Tag(params[i].ty))
    && ExprCode(fp, fns, t, |s.code|)
  }

  lemma {:induction false} EmitMovesOk(fp: FloatModel, fns: seq<Function>, s: Draft, params: seq<Param>, regs: seq<nat>)
    requires |params| == |regs| && Small(s)
    requires forall i | 0 <= i < |regs| :: regs[i] < |s.types| && s.types[regs[i]] == Tag(params[i].ty)
    requires EmitMoves(s, params, regs).Some?
    ensures MovesOk(fp, fns, s, params, EmitMoves(s, params, regs).value)
    decreases |regs|
  {
    if regs != [] {
      var x := Produce(s, params[0].ty, Move, regs[0], 0, ZERO).value;
      assert ExprIns(fp, fns, x.draft.types, x.draft.code[|s.code|]);
      EmitMovesOk(fp, fns, x.draft, params[1..], regs[1..]);
      var t := EmitMoves(s, params, regs).value;
      assert t.types[|s.types|] == Tag(params[0].ty);
      forall i | 0 <= i < |params|
        ensures t.types[|s.types| + i] == Tag(params[i].ty)
      {
        if i > 0 { assert t.types[|x.draft.types| + (i - 1)] == Tag(params[1..][i - 1].ty); }
      }
      assert ExprCode(fp, fns, x.draft, |s.code|);
      ExprCodeExtends(fp, fns, x.draft, t, |s.code|);
    }
  }

  // ----- statements -----

  /** An instruction of a function body: branches go forward and no further than `limit`. */
  ghost predicate BodyIns(
      fp: FloatModel, fns: seq<Function>, ret: Type, types: seq<nat>, ins: Instruction, pc: nat, limit: nat)
  {
    match ins.op
    case Jump => pc < ins.a <= limit && ins.b == 0 && ins.c == 0 && ins.imm == ZERO
    case JumpIfFalse =>
      && ins.a < |types| && types[ins.a] == BOOLEAN_TAG
      && pc < ins.b <= limit && ins.c == 0 && ins.imm == ZERO
    case Return =>
      && ins.a < |types| && types[ins.a] == Tag(ret)
      && ins.b == 0 && ins.c == 0 && ins.imm == ZERO
    case _ => ExprIns(fp, fns, types, ins)
  }

  ghost predicate BodyCode(fp: FloatModel, fns: seq<Function>, ret: Type, s: Draft, from: nat, limit: nat) {
    forall pc | from <= pc < |s.code| :: BodyIns(fp, fns, ret, s.types, s.code[pc], pc, limit)
  }

  /** Statements that always return leave no branch to the position after them. */
  function Limit(r: LoweredBody): int { if r.ends then |r.draft.code| - 1 else |r.draft.code| }

  ghost predicate BodyOk(fp: FloatModel, fns: seq<Function>, ret: Type, s: Draft, base: nat, r: LoweredBody) {
    && Extends(s, r.draft) && Small(r.draft)
    && s.locals <= r.draft.locals && LocalsOk(r.draft, base)
    && (r.ends ==> |s.code| < |r.draft.code| && r.draft.code[|r.draft.code| - 1].op.Return?)
    && Limit(r) >= 0 && BodyCode(fp, fns, ret, r.draft, |s.code|, Limit(r))
  }

  lemma {:induction false} ExprIsBody(fp: FloatModel, fns: seq<Function>, ret: Type, s: Draft, from: nat, limit: nat)
    requires ExprCode(fp, fns, s, from)
    ensures BodyCode(fp, fns, ret, s, from, limit)
  {
  }

  lemma {:induction false} BodyCodeExtends(
      fp: FloatModel, fns: seq<Function>, ret: Type, s: Draft, t: Draft, from: nat, limit: nat, limit': nat)
    requires Extends(s, t) && limit <= limit' && BodyCode(fp, fns, ret, s, from, limit)
    requires BodyCode(fp, fns, ret, t, |s.code|, limit')
    ensures BodyCode(fp, fns, ret, t, from, limit')
  {
    forall pc | from <= pc < |t.code|
      ensures BodyIns(fp, fns, ret, t.types, t.code[pc], pc, limit')
    {
      if pc < |s.code| {
        assert BodyIns(fp, fns, ret, s.types, s.code[pc], pc, limit);
      }
    }
  }

  lemma {:induction false} BindOk(s: Draft, base: nat, id: nat, ty: Type)
    requires LocalsOk(s, base) && Allocate(s, ty).Some?
    requires Bind(Allocate(s, ty).value, id, |s.types|, ty).Some?
    ensures LocalsOk(Bind(Allocate(s, ty).value, id, |s.types|, ty).value, base)
  {
    FindLocalCorrect(s.locals, id);
  }

  /** One more instruction after the code of an expression. */
  lemma {:induction false} EmitOk(
      fp: FloatModel, fns: seq<Function>, ret: Type, s: Draft, base: nat, ty: Type, x: Lowered, ins: Instruction,
      ends: bool)
    requires LocalsOk(s, base) && ExprOk(fp, fns, s, base, ty, x) && Emit(x.draft, ins).Some?
    requires ends == ins.op.Return?
    requires BodyIns(fp, fns, ret, x.draft.types, ins, |x.draft.code|, |x.draft.code|)
    ensures BodyOk(fp, fns, ret, s, base, LoweredBody(Emit(x.draft, ins).value, ends))
  {
    var t := Emit(x.draft, ins).value;
    ExprIsBody(fp, fns, ret, x.draft, |s.code|, |x.draft.code|);
    LocalsOkExtends(s, t, base);
    BodyCodeExtends(fp, fns, ret, x.draft, t, |s.code|, |x.draft.code|, Limit(LoweredBody(t, ends)));
  }

  lemma {:induction false} LowerStmtOk(
      fp: FloatModel, fns: seq<Function>, ret: Type, s: Draft, base: nat, st: Stmt, depth: nat)
    requires fp.WellBehaved() && LocalsOk(s, base) && Small(s)
    requires LowerStmt(fp, fns, ret, s, st, depth).Some?
    ensures BodyOk(fp, fns, ret, s, base, LowerStmt(fp, fns, ret, s, st, depth).value)
    decreases st
  {
    match st
    case Declare(ty, id, init) =>
      var s2 := Bind(Allocate(s, ty).value, id, |s.types|, ty).value;
      BindOk(s, base, id, ty);
      var x := LowerExpr(fp, fns, s2, init, 0).value;
      LowerExprOk(fp, fns, s2, base, init, 0);
      EmitOk(fp, fns, ret, s2, base, ty, x, Instruction(Move, |s.types|, x.reg, 0, ZERO), false);
    case Assign(ty, id, value) =>
      FindLocalCorrect(s.locals, id);
      var x := LowerExpr(fp, fns, s, value, 0).value;
      LowerExprOk(fp, fns, s, base, value, 0);
      var l := FindLocal(s.locals, id).value;
      EmitOk(fp, fns, ret, s, base, ty, x, Instruction(Move, l.reg, x.reg, 0, ZERO), false);
    case Return(ty, result) =>
      var x := LowerExpr(fp, fns, s, result, 0).value;
      LowerExprOk(fp, fns, s, base, result, 0);
      EmitOk(fp, fns, ret, s, base, ty, x, Instruction(Opcode.Return, x.reg, 0, 0, ZERO), true);
    case If(_, _, _) => LowerIfOk(fp, fns, ret, s, base, st, depth);
  }

  lemma {:induction false} LowerIfOk(
      fp: FloatModel, fns: seq<Function>, ret: Type, s: Draft, base: nat, st: Stmt, depth: nat)
    requires fp.WellBehaved() && LocalsOk(s, base) && Small(s) && st.If?
    requires LowerStmt(fp, fns, ret, s, st, depth).Some?
    ensures BodyOk(fp, fns, ret, s, base, LowerStmt(fp, fns, ret, s, st, depth).value)
    decreases st, 0
  {
    var If(cond, thenBody, elseBody) := st;
    var x := LowerExpr(fp, fns, s, cond, 0).value;
    LowerExprOk(fp, fns, s, base, cond, 0);
    var s1 := Emit(x.draft, Instruction(JumpIfFalse, x.reg, UINT32_MAX, 0, ZERO)).value;
    LocalsOkExtends(s, s1, base);
    var t := LowerList(fp, fns, ret, s1, thenBody, depth + 1).value;
    LowerListOk(fp, fns, ret, s1, base, thenBody, depth + 1);
    var i := |x.draft.code|;
    var j := |t.draft.code|;
    if elseBody == [] {
      ThenOk(fp, fns, ret, s, base, x, t, t.draft);
      assert LowerStmt(fp, fns, ret, s, st, depth).value == LoweredBody(Patch(t.draft, i, j).value, false);
    } else if t.ends {
      ThenOk(fp, fns, ret, s, base, x, t, t.draft);
      var s3 := Patch(t.draft, i, j).value;
      LowerListOk(fp, fns, ret, s3, base, elseBody, depth + 1);
      var e := LowerList(fp, fns, ret, s3, elseBody, depth + 1).value;
      BodyCodeExtends(fp, fns, ret, s3, e.draft, |s.code|, j, Limit(e));
      assert LowerStmt(fp, fns, ret, s, st, depth).value == e;
    } else {
      var s2 := Emit(t.draft, Instruction(Jump, UINT32_MAX, 0, 0, ZERO)).value;
      ThenOk(fp, fns, ret, s, base, x, t, s2);
      var s3 := Patch(s2, i, |s2.code|).value;
      LowerListOk(fp, fns, ret, s3, base, elseBody, depth + 1);
      var e := LowerList(fp, fns, ret, s3, elseBody, depth + 1).value;
      ElseOk(fp, fns, ret, s, base, j, s3, e);
      assert LowerStmt(fp, fns, ret, s, st, depth).value == LoweredBody(Patch(e.draft, j, |e.draft.code|).value, false);
    }
  }

  /** The draft when the then-branch is done, with or without its closing jump: patching the
      conditional branch to its end leaves only that jump unfinished. */
  lemma {:induction false} ThenOk(
      fp: FloatModel, fns: seq<Function>, ret: Type, s: Draft, base: nat, x: Lowered, t: LoweredBody, s2: Draft)
    requires LocalsOk(s, base) && ExprOk(fp, fns, s, base, Boolean, x)
    requires Emit(x.draft, Instruction(JumpIfFalse, x.reg, UINT32_MAX, 0, ZERO)).Some?
    requires BodyOk(fp, fns, ret, Emit(x.draft, Instruction(JumpIfFalse, x.reg, UINT32_MAX, 0, ZERO)).value, base, t)
    requires s2 == t.draft || Emit(t.draft, Instruction(Jump, UINT32_MAX, 0, 0, ZERO)) == Some(s2)
    requires Patch(s2, |x.draft.code|, |s2.code|).Some?
    ensures var s3 := Patch(s2, |x.draft.code|, |s2.code|).value;
            && Extends(s, s3) && Small(s3) && s.locals <= s3.locals && LocalsOk(s3, base)
            && |s3.code| == |s2.code| > |s.code| && s3.types == s2.types && s3.locals == s2.locals
            && forall pc | |s.code| <= pc < |t.draft.code| ::
                 BodyIns(fp, fns, ret, s3.types, s3.code[pc], pc, |s2.code|)
    ensures var s3 := Patch(s2, |x.draft.code|, |s2.code|).value;
            |t.draft.code| < |s2.code| ==> s3.code[|t.draft.code|] == Instruction(Jump, UINT32_MAX, 0, 0, ZERO)
  {
    var i := |x.draft.code|;
    var k := |s2.code|;
    var s3 := Patch(s2, i, k).value;
    assert s2.code[i] == Instruction(JumpIfFalse, x.reg, UINT32_MAX, 0, ZERO);
    forall pc | |s.code| <= pc < |t.draft.code|
      ensures BodyIns(fp, fns, ret, s3.types, s3.code[pc], pc, k)
    {
      ThenIns(fp, fns, ret, s, x, t, s3, pc, k);
    }
    LocalsOkExtends(t.draft, s3, base);
  }

  /** One instruction: of the condition, the patched branch, or of the body. */
  lemma {:induction false} ThenIns(
      fp: FloatModel, fns: seq<Function>, ret: Type, s: Draft, x: Lowered, t: LoweredBody, s3: Draft, pc: nat, k: nat)
    requires ExprCode(fp, fns, x.draft, |s.code|) && x.draft.types <= t.draft.types && s3.types == t.draft.types
    requires x.reg < |x.draft.types| && x.draft.types[x.reg] == BOOLEAN_TAG
    requires 0 <= Limit(t) <= k && BodyCode(fp, fns, ret, t.draft, |x.draft.code| + 1, Limit(t))
    requires |s.code| <= pc < |t.draft.code| <= |s3.code| && |x.draft.code| < |t.draft.code| <= k
    requires forall j | 0 <= j < |x.draft.code| :: s3.code[j] == x.draft.code[j]
    requires s3.code[|x.draft.code|] == Instruction(JumpIfFalse, x.reg, k, 0, ZERO)
    requires forall j | |x.draft.code| < j < |t.draft.code| :: s3.code[j] == t.draft.code[j]
    ensures BodyIns(fp, fns, ret, s3.types, s3.code[pc], pc, k)
  {
    if pc < |x.draft.code| {
      ExprInsExtends(fp, fns, x.draft.types, s3.types, x.draft.code[pc]);
    } else if pc > |x.draft.code| {
      assert BodyIns(fp, fns, ret, t.draft.types, t.draft.code[pc], pc, Limit(t));
    }
  }

  /** The draft when the else-branch is done: patching the jump over it finishes the statement. */
  lemma {:induction false} ElseOk(
      fp: FloatModel, fns: seq<Function>, ret: Type, s: Draft, base: nat, j: nat, s3: Draft, e: LoweredBody)
    requires |s.code| <= j && |s3.code| == j + 1 && Extends(s, s3) && s.locals <= s3.locals
    requires s3.code[j] == Instruction(Jump, UINT32_MAX, 0, 0, ZERO)
    requires forall pc | |s.code| <= pc < j :: BodyIns(fp, fns, ret, s3.types, s3.code[pc], pc, j + 1)
    requires BodyOk(fp, fns, ret, s3, base, e)
    requires Patch(e.draft, j, |e.draft.code|).Some?
    ensures BodyOk(fp, fns, ret, s, base, LoweredBody(Patch(e.draft, j, |e.draft.code|).value, false))
  {
    var m := |e.draft.code|;
    var s4 := Patch(e.draft, j, m).value;
    assert e.draft.code[j] == s3.code[j];
    assert s4 == e.draft.(code := e.draft.code[j := Instruction(Jump, m, 0, 0, ZERO)]);
    forall pc | |s.code| <= pc < m
      ensures BodyIns(fp, fns, ret, s4.types, s4.code[pc], pc, m)
    {
      ElseIns(fp, fns, ret, s, j, s3, base, e, pc);
    }
    LocalsOkExtends(e.draft, s4, base);
    assert s.code <= s4.code;
  }

  lemma {:induction false} ElseIns(
      fp: FloatModel, fns: seq<Function>, ret: Type, s: Draft, j: nat, s3: Draft, base: nat, e: LoweredBody, pc: nat)
    requires |s.code| <= j && |s3.code| == j + 1
    requires forall pc | |s.code| <= pc < j :: BodyIns(fp, fns, ret, s3.types, s3.code[pc], pc, j + 1)
    requires BodyOk(fp, fns, ret, s3, base, e)
    requires |s.code| <= pc < |e.draft.code|
    ensures var code := e.draft.code[j := Instruction(Jump, |e.draft.code|, 0, 0, ZERO)];
            BodyIns(fp, fns, ret, e.draft.types, code[pc], pc, |e.draft.code|)
  {
    if pc < j {
      assert BodyIns(fp, fns, ret, s3.types, s3.code[pc], pc, j + 1);
      assert e.draft.code[pc] == s3.code[pc];
    } else if pc > j {
      assert BodyIns(fp, fns, ret, e.draft.types, e.draft.code[pc], pc, Limit(e));
    }
  }

  lemma {:induction false} LowerListOk(
      fp: FloatModel, fns: seq<Function>, ret: Type, s: Draft, base: nat, ss: seq<Stmt>, depth: nat)
    requires fp.WellBehaved() && LocalsOk(s, base) && Small(s)
    requires LowerList(fp, fns, ret, s, ss, depth).Some?
    ensures BodyOk(fp, fns, ret, s, base, LowerList(fp, fns, ret, s, ss, depth).value)
    decreases ss
  {
    if ss != [] {
      var r := LowerStmt(fp, fns, ret, s, ss[0], depth).value;
      LowerStmtOk(fp, fns, ret, s, base, ss[0], depth);
      if |ss| > 1 {
        var q := LowerList(fp, fns, ret, r.draft, ss[1..], depth).value;
        LowerListOk(fp, fns, ret, r.draft, base, ss[1..], depth);
        BodyCodeExtends(fp, fns, ret, r.draft, q.draft, |s.code|, Limit(r), Limit(q));
      }
    }
  }

  // ----- the parts of a conditional -----

  /** The draft when the conditional branch has been emitted. */
  function IfHead(fp: FloatModel, fns: seq<Function>, s: Draft, st: Stmt): Draft
    requires st.If? && LowerExpr(fp, fns, s, st.cond, 0).Some?
  {
    var x := LowerExpr(fp, fns, s, st.cond, 0).value;
    x.draft.(code := x.draft.code + [Instruction(JumpIfFalse, x.reg, UINT32_MAX, 0, ZERO)])
  }

  function IfThen(fp: FloatModel, fns: seq<Function>, ret: Type, s: Draft, st: Stmt, depth: nat): Option<LoweredBody>
    requires st.If? && LowerExpr(fp, fns, s, st.cond, 0).Some?
  {
    LowerList(fp, fns, ret, IfHead(fp, fns, s, st), st.thenBody, depth + 1)
  }

  /** The draft where the else-branch starts, or the end if there is none. */
  function IfMiddle(fp: FloatModel, fns: seq<Function>, ret: Type, s: Draft, st: Stmt, depth: nat): Draft
    requires st.If? && LowerExpr(fp, fns, s, st.cond, 0).Some? && IfThen(fp, fns, ret, s, st, depth).Some?
  {
    var x := LowerExpr(fp, fns, s, st.cond, 0).value;
    var t := IfThen(fp, fns, ret, s, st, depth).value;
    var code := if st.elseBody == [] || t.ends then t.draft.code
                else t.draft.code + [Instruction(Jump, UINT32_MAX, 0, 0, ZERO)];
    if |x.draft.code| < |code| then
      t.draft.(code := code[|x.draft.code| := Instruction(JumpIfFalse, x.reg, |code|, 0, ZERO)])
    else t.draft
  }

  /** The lowering of a conditional, put together from its parts. */
  lemma {:induction false} IfParts(fp: FloatModel, fns: seq<Function>, ret: Type, s: Draft, base: nat, st: Stmt, depth: nat)
    requires fp.WellBehaved() && LocalsOk(s, base) && Small(s) && st.If?
    requires LowerStmt(fp, fns, ret, s, st, depth).Some?
    ensures st.cond.Type() == Boolean && LowerExpr(fp, fns, s, st.cond, 0).Some?
    ensures var x := LowerExpr(fp, fns, s, st.cond, 0).value;
            ExprOk(fp, fns, s, base, Boolean, x) && LocalsOk(IfHead(fp, fns, s, st), base) && Small(IfHead(fp, fns, s, st))
    ensures IfThen(fp, fns, ret, s, st, depth).Some?
    ensures var t := IfThen(fp, fns, ret, s, st, depth).value;
            BodyOk(fp, fns, ret, IfHead(fp, fns, s, st), base, t)
    ensures var r := LowerStmt(fp, fns, ret, s, st, depth).value;
            var t := IfThen(fp, fns, ret, s, st, depth).value;
            var m := IfMiddle(fp, fns, ret, s, st, depth);
            && LocalsOk(m, base) && Small(m) && m.locals == t.draft.locals && m.types == t.draft.types
            && (if st.elseBody == [] then r == LoweredBody(m, false)
                else
                  && LowerList(fp, fns, ret, m, st.elseBody, depth + 1).Some?
                  && var e := LowerList(fp, fns, ret, m, st.elseBody, depth + 1).value;
                  && BodyOk(fp, fns, ret, m, base, e)
                  && if t.ends then r == e
                     else
                       && |t.draft.code| < |e.draft.code|
                       && r == LoweredBody(e.draft.(code := e.draft.code[|t.draft.code| :=
                                 Instruction(Jump, |e.draft.code|, 0, 0, ZERO)]), false))
  {
    var x := LowerExpr(fp, fns, s, st.cond, 0).value;
    LowerExprOk(fp, fns, s, base, st.cond, 0);
    var s1 := Emit(x.draft, Instruction(JumpIfFalse, x.reg, UINT32_MAX, 0, ZERO)).value;
    LocalsOkExtends(s, s1, base);
    var t := LowerList(fp, fns, ret, s1, st.thenBody, depth + 1).value;
    LowerListOk(fp, fns, ret, s1, base, st.thenBody, depth + 1);
    var m := IfMiddle(fp, fns, ret, s, st, depth);
    assert t.draft.code[|x.draft.code|] == s1.code[|x.draft.code|];
    LocalsOkExtends(t.draft, m, base);
    if st.elseBody != [] {
      LowerListOk(fp, fns, ret, m, base, st.elseBody, depth + 1);
      var e := LowerList(fp, fns, ret, m, st.elseBody, depth + 1).value;
      if !t.ends { assert e.draft.code[|t.draft.code|] == m.code[|t.draft.code|]; }
    }
  }

  // ----- functions -----

  ghost predicate ParamsOk(s: Draft, base: nat, params: seq<Param>, t: Draft) {
    && t.code == s.code && s.types <= t.types && |t.types| == |s.types| + |params| && Small(t)
    && s.locals <= t.locals && |t.locals| == |s.locals| + |params|
    && LocalsOk(t, base)
    && forall i | 0 <= i < |params| ::
         t.locals[|s.locals| + i] == Local(params[i].id, |s.types| + i, params[i].ty)
  }

  lemma {:induction false} LowerParamsOk(s: Draft, base: nat, params: seq<Param>)
    requires LocalsOk(s, base) && Small(s) && LowerParams(s, params).Some?
    ensures ParamsOk(s, base, params, LowerParams(s, params).value)
    decreases |params|
  {
    if params != [] {
      var s2 := Bind(Allocate(s, params[0].ty).value, params[0].id, |s.types|, params[0].ty).value;
      BindOk(s, base, params[0].id, params[0].ty);
      LowerParamsOk(s2, base, params[1..]);
      var t := LowerParams(s, params).value;
      forall i | 0 <= i < |params|
        ensures t.locals[|s.locals| + i] == Local(params[i].id, |s.types| + i, params[i].ty)
      {
        if i == 0 {
          assert t.locals[|s.locals|] == s2.locals[|s.locals|];
        } else {
          assert t.locals[|s2.locals| + (i - 1)] == Local(params[1..][i - 1].id, |s2.types| + (i - 1), params[1..][i - 1].ty);
        }
      }
    }
  }

  /** The draft at the start of a body: the marker is emitted, the parameters have the first registers. */
  lemma {:induction false} OpenFunctionOk(s: Draft, f: nat, params: seq<Param>)
    requires Small(s) && OpenFunction(s, f, params).Some?
    ensures var t := OpenFunction(s, f, params).value;
            && Small(t) && Extends(s, t) && LocalsOk(t, |s.types|)
            && t.code == s.code + [Instruction(FunctionMark, f, |s.types|, |params|, ZERO)]
            && |t.types| == |s.types| + |params| && |t.locals| == |params|
            && forall i | 0 <= i < |params| :: t.locals[i] == Local(params[i].id, |s.types| + i, params[i].ty)
  {
    var s1 := Emit(s, Instruction(FunctionMark, f, |s.types|, |params|, ZERO)).value.(locals := []);
    LowerParamsOk(s1, |s.types|, params);
    var t := OpenFunction(s, f, params).value;
    forall i | 0 <= i < |params|
      ensures t.locals[i] == Local(params[i].id, |s.types| + i, params[i].ty)
    {
      assert t.locals[|s1.locals| + i] == Local(params[i].id, |s1.types| + i, params[i].ty);
    }
  }

  /** A whole function: marker, body, and a RETURN at the end. */
  ghost predicate FunctionCode(fp: FloatModel, fns: seq<Function>, f: nat, s: Draft, t: Draft) {
    && f < |fns|
    && Extends(s, t) && Small(t)
    && var params := fns[f].params;
    && |params| <= MAX_REGISTERS
    && |s.code| + 2 <= |t.code| && |s.types| + |params| <= |t.types|
    && t.code[|s.code|] == Instruction(FunctionMark, f, |s.types|, |params|, ZERO)
    && t.code[|t.code| - 1].op.Return?
    && BodyCode(fp, fns, fns[f].returnType, t, |s.code| + 1, |t.code| - 1)
    && forall i | 0 <= i < |params| :: t.types[|s.types| + i] == Tag(params[i].ty)
  }

  lemma {:induction false} LowerFunctionOk(fp: FloatModel, fns: seq<Function>, s: Draft, f: nat)
    requires fp.WellBehaved() && Small(s) && f < |fns| && LowerFunction(fp, fns, s, f).Some?
    ensures FunctionCode(fp, fns, f, s, LowerFunction(fp, fns, s, f).value)
  {
    var params := fns[f].params;
    var o := OpenFunction(s, f, params).value;
    OpenFunctionOk(s, f, params);
    LowerListOk(fp, fns, fns[f].returnType, o, |s.types|, fns[f].body, 0);
    var t := LowerFunction(fp, fns, s, f).value;
    forall i | 0 <= i < |params|
      ensures t.types[|s.types| + i] == Tag(params[i].ty)
    {
      assert o.locals[i] == Local(params[i].id, |s.types| + i, params[i].ty);
      assert o.types[o.locals[i].reg] == Tag(o.locals[i].ty);
    }
  }
}
