/** The verifier accepts everything the compiler emits. */
module CompilerVerified {
  import opened Wrappers
  import opened Floats
  import opened Hir
  import opened Bytecode
  import opened Lowering
  import opened LoweringFacts
  import opened CallGraph
  import opened Compiler
  import opened CompilerCorrect
  import opened Verifier
  import opened Verification

  // ----- the code calls what the source calls -----

  /** The functions called between two positions. */
  ghost function CodeCalls(code: seq<Instruction>, lo: nat, hi: nat): set<nat> {
    set pc: nat | lo <= pc < hi && pc < |code| && code[pc].op.Call? :: code[pc].b
  }

  ghost predicate SameCalls(a: seq<Instruction>, b: seq<Instruction>, lo: nat, hi: nat) {
    && hi <= |a| && hi <= |b|
    && forall pc | lo <= pc < hi :: a[pc].op.Call? == b[pc].op.Call? && (a[pc].op.Call? ==> a[pc].b == b[pc].b)
  }

  lemma {:induction false} CallsSame(a: seq<Instruction>, b: seq<Instruction>, lo: nat, hi: nat)
    requires SameCalls(a, b, lo, hi)
    ensures CodeCalls(a, lo, hi) == CodeCalls(b, lo, hi)
  {
    forall g | g in CodeCalls(a, lo, hi)
      ensures g in CodeCalls(b, lo, hi)
    {
      var pc: nat :| lo <= pc < hi && pc < |a| && a[pc].op.Call? && a[pc].b == g;
      assert b[pc].op.Call? && b[pc].b == g;
    }
    forall g | g in CodeCalls(b, lo, hi)
      ensures g in CodeCalls(a, lo, hi)
    {
      var pc: nat :| lo <= pc < hi && pc < |b| && b[pc].op.Call? && b[pc].b == g;
      assert a[pc].op.Call? && a[pc].b == g;
    }
  }

  lemma {:induction false} CallsSplit(code: seq<Instruction>, lo: nat, mid: nat, hi: nat)
    requires lo <= mid <= hi
    ensures CodeCalls(code, lo, hi) == CodeCalls(code, lo, mid) + CodeCalls(code, mid, hi)
  {
  }

  lemma {:induction false} CallsNone(code: seq<Instruction>, lo: nat, hi: nat)
    requires forall pc | lo <= pc < hi && pc < |code| :: !code[pc].op.Call?
    ensures CodeCalls(code, lo, hi) == {}
  {
  }

  /** Two stretches of code, one after the other. */
  lemma {:induction false} CallsJoin(s: Draft, t: Draft, u: Draft)
    requires |s.code| <= |t.code| && Extends(t, u)
    ensures CodeCalls(u.code, |s.code|, |u.code|)
         == CodeCalls(t.code, |s.code|, |t.code|) + CodeCalls(u.code, |t.code|, |u.code|)
  {
    CallsSplit(u.code, |s.code|, |t.code|, |u.code|);
    CallsSame(u.code, t.code, |s.code|, |t.code|);
  }

  /** One instruction after a stretch of code. */
  lemma {:induction false} CallsEmit(s: Draft, t: Draft, u: Draft, ins: Instruction)
    requires Extends(s, t) && u.code == t.code + [ins] && t.types <= u.types
    ensures CodeCalls(u.code, |s.code|, |u.code|)
         == CodeCalls(t.code, |s.code|, |t.code|) + (if ins.op.Call? then {ins.b} else {})
  {
    CallsJoin(s, t, u);
    assert u.code[|t.code|] == ins;
    forall g
      ensures g in CodeCalls(u.code, |t.code|, |u.code|) <==> ins.op.Call? && g == ins.b
    {
      if ins.op.Call? && g == ins.b { assert u.code[|t.code|].b == g; }
    }
  }

  lemma {:induction false} IndexIsLast(fns: seq<Function>, id: nat)
    requires DistinctIds(fns) && FunctionIndex(fns, id).Some? && LastIndex(fns, id, |fns|).Some?
    ensures FunctionIndex(fns, id) == LastIndex(fns, id, |fns|)
  {
    IndexFromCorrect(fns, id, 0);
  }

  /** What every lowering is called with. */
  ghost predicate Ready(fp: FloatModel, fns: seq<Function>, s: Draft, base: nat) {
    fp.WellBehaved() && DistinctIds(fns) && LocalsOk(s, base) && Small(s)
  }

  lemma {:induction false} ExprCalls(
      fp: FloatModel, fns: seq<Function>, s: Draft, base: nat, e: Expr, depth: nat, level: nat)
    requires Ready(fp, fns, s, base) && LowerExpr(fp, fns, s, e, depth).Some? && ExprCallees(fns, e, level).Some?
    ensures var t := LowerExpr(fp, fns, s, e, depth).value.draft;
            CodeCalls(t.code, |s.code|, |t.code|) == ExprCallees(fns, e, level).value
    decreases e, 1
  {
    match e
    case NumberLiteral(x) => CallsEmit(s, s, LowerExpr(fp, fns, s, e, depth).value.draft, Instruction(ConstF64, |s.types|, 0, 0, x));
    case BooleanLiteral(b) =>
      CallsEmit(s, s, LowerExpr(fp, fns, s, e, depth).value.draft, Instruction(ConstBool, |s.types|, 0, 0, Truth(b)));
    case Variable(_, _) =>
    case Binary(_, _, _, _) => BinaryCalls(fp, fns, s, base, e, depth, level);
    case Call(_, _, _) => CallCalls(fp, fns, s, base, e, depth, level);
  }

  lemma {:induction false} BinaryCalls(
      fp: FloatModel, fns: seq<Function>, s: Draft, base: nat, e: Expr, depth: nat, level: nat)
    requires Ready(fp, fns, s, base) && LowerExpr(fp, fns, s, e, depth).Some? && ExprCallees(fns, e, level).Some?
    requires e.Binary?
    ensures var t := LowerExpr(fp, fns, s, e, depth).value.draft;
            CodeCalls(t.code, |s.code|, |t.code|) == ExprCallees(fns, e, level).value
    decreases e, 0
  {
    LowerOperandsOk(fp, fns, s, base, e, depth + 1);
    var x := LowerExpr(fp, fns, s, e.left, depth + 1).value;
    var y := LowerExpr(fp, fns, x.draft, e.right, depth + 1).value;
    ExprCalls(fp, fns, s, base, e.left, depth + 1, level + 1);
    ExprCalls(fp, fns, x.draft, base, e.right, depth + 1, level + 1);
    CallsJoin(s, x.draft, y.draft);
    CallsEmit(s, y.draft, LowerExpr(fp, fns, s, e, depth).value.draft,
              Instruction(OpcodeOf(e.op), |y.draft.types|, x.reg, y.reg, ZERO));
  }

  lemma {:induction false} CallCalls(
      fp: FloatModel, fns: seq<Function>, s: Draft, base: nat, e: Expr, depth: nat, level: nat)
    requires Ready(fp, fns, s, base) && LowerExpr(fp, fns, s, e, depth).Some? && ExprCallees(fns, e, level).Some?
    requires e.Call?
    ensures var t := LowerExpr(fp, fns, s, e, depth).value.draft;
            CodeCalls(t.code, |s.code|, |t.code|) == ExprCallees(fns, e, level).value
    decreases e, 0
  {
    var g := FunctionIndex(fns, e.callee).value;
    IndexIsLast(fns, e.callee);
    var params := fns[g].params;
    LowerMovedOk(fp, fns, s, base, e.args, params, depth + 1);
    var xs := LowerArgs(fp, fns, s, e.args, params, depth + 1).value;
    var moved := EmitMoves(xs.draft, params, xs.regs).value;
    ArgsCalls(fp, fns, s, base, e.args, params, depth + 1, level + 1);
    MovesCalls(xs.draft, params, xs.regs);
    CallsJoin(s, xs.draft, moved);
    CallsEmit(s, moved, LowerExpr(fp, fns, s, e, depth).value.draft,
              Instruction(Opcode.Call, |moved.types|, g, |xs.draft.types|, fp.ofWhole(|e.args|)));
  }

  lemma {:induction false} ArgsCalls(
      fp: FloatModel, fns: seq<Function>, s: Draft, base: nat, args: seq<Expr>, params: seq<Param>, depth: nat, level: nat)
    requires Ready(fp, fns, s, base) && |args| == |params|
    requires LowerArgs(fp, fns, s, args, params, depth).Some? && ArgsCallees(fns, args, level).Some?
    ensures var t := LowerArgs(fp, fns, s, args, params, depth).value.draft;
            CodeCalls(t.code, |s.code|, |t.code|) == ArgsCallees(fns, args, level).value
    decreases args, 0
  {
    if args != [] {
      var x := LowerExpr(fp, fns, s, args[0], depth).value;
      LowerExprOk(fp, fns, s, base, args[0], depth);
      LocalsOkExtends(s, x.draft, base);
      LowerArgsOk(fp, fns, x.draft, base, args[1..], params[1..], depth);
      ExprCalls(fp, fns, s, base, args[0], depth, level);
      ArgsCalls(fp, fns, x.draft, base, args[1..], params[1..], depth, level);
      CallsJoin(s, x.draft, LowerArgs(fp, fns, s, args, params, depth).value.draft);
    }
  }

  lemma {:induction false} MovesCalls(s: Draft, params: seq<Param>, regs: seq<nat>)
    requires |params| == |regs| && EmitMoves(s, params, regs).Some?
    ensures var t := EmitMoves(s, params, regs).value;
            Extends(s, t) && CodeCalls(t.code, |s.code|, |t.code|) == {}
    decreases |regs|
  {
    if regs != [] {
      var x := Produce(s, params[0].ty, Move, regs[0], 0, ZERO).value;
      MovesCalls(x.draft, params[1..], regs[1..]);
      CallsEmit(s, s, x.draft, Instruction(Move, |s.types|, regs[0], 0, ZERO));
      CallsJoin(s, x.draft, EmitMoves(s, params, regs).value);
    }
  }

  /** An expression and one instruction, which is not a call. */
  lemma {:induction false} ExprThen(
      fp: FloatModel, fns: seq<Function>, s: Draft, base: nat, e: Expr, ins: Instruction, u: Draft, level: nat)
    requires Ready(fp, fns, s, base) && LowerExpr(fp, fns, s, e, 0).Some? && ExprCallees(fns, e, level).Some?
    requires Emit(LowerExpr(fp, fns, s, e, 0).value.draft, ins) == Some(u) && !ins.op.Call?
    ensures Extends(s, u) && CodeCalls(u.code, |s.code|, |u.code|) == ExprCallees(fns, e, level).value
  {
    LowerExprOk(fp, fns, s, base, e, 0);
    ExprCalls(fp, fns, s, base, e, 0, level);
    CallsEmit(s, LowerExpr(fp, fns, s, e, 0).value.draft, u, ins);
  }

  lemma {:induction false} StmtCalls(
      fp: FloatModel, fns: seq<Function>, ret: Type, s: Draft, base: nat, st: Stmt, depth: nat, level: nat)
    requires Ready(fp, fns, s, base)
    requires LowerStmt(fp, fns, ret, s, st, depth).Some? && StmtCallees(fns, st, level).Some?
    ensures var t := LowerStmt(fp, fns, ret, s, st, depth).value.draft;
            CodeCalls(t.code, |s.code|, |t.code|) == StmtCallees(fns, st, level).value
    decreases st, 1
  {
    var t := LowerStmt(fp, fns, ret, s, st, depth).value.draft;
    match st
    case Declare(ty, id, init) =>
      var s2 := Bind(Allocate(s, ty).value, id, |s.types|, ty).value;
      BindOk(s, base, id, ty);
      var x := LowerExpr(fp, fns, s2, init, 0).value;
      ExprThen(fp, fns, s2, base, init, Instruction(Move, |s.types|, x.reg, 0, ZERO), t, level + 1);
    case Assign(ty, id, value) =>
      var x := LowerExpr(fp, fns, s, value, 0).value;
      var reg := FindLocal(s.locals, id).value.reg;
      ExprThen(fp, fns, s, base, value, Instruction(Move, reg, x.reg, 0, ZERO), t, level + 1);
    case Return(ty, result) =>
      var x := LowerExpr(fp, fns, s, result, 0).value;
      ExprThen(fp, fns, s, base, result, Instruction(Opcode.Return, x.reg, 0, 0, ZERO), t, level + 1);
    case If(_, _, _) => IfCalls(fp, fns, ret, s, base, st, depth, level);
  }

  /** Condition, branch, then-part, perhaps a jump, else-part. */
  lemma {:induction false} IfCalls(
      fp: FloatModel, fns: seq<Function>, ret: Type, s: Draft, base: nat, st: Stmt, depth: nat, level: nat)
    requires Ready(fp, fns, s, base) && st.If?
    requires LowerStmt(fp, fns, ret, s, st, depth).Some? && StmtCallees(fns, st, level).Some?
    ensures var t := LowerStmt(fp, fns, ret, s, st, depth).value.draft;
            CodeCalls(t.code, |s.code|, |t.code|) == StmtCallees(fns, st, level).value
    decreases st, 0
  {
    IfParts(fp, fns, ret, s, base, st, depth);
    var x := LowerExpr(fp, fns, s, st.cond, 0).value;
    var head := IfHead(fp, fns, s, st);
    var a := IfThen(fp, fns, ret, s, st, depth).value;
    var m := IfMiddle(fp, fns, ret, s, st, depth);
    var r := LowerStmt(fp, fns, ret, s, st, depth).value;
    ExprThen(fp, fns, s, base, st.cond, Instruction(JumpIfFalse, x.reg, UINT32_MAX, 0, ZERO), head, level + 1);
    ListCalls(fp, fns, ret, head, base, st.thenBody, depth + 1, level + 1);
    CallsJoin(s, head, a.draft);
    assert a.draft.code[|x.draft.code|] == head.code[|x.draft.code|];
    assert SameCalls(m.code, a.draft.code, |s.code|, |a.draft.code|);
    CallsSame(m.code, a.draft.code, |s.code|, |a.draft.code|);
    CallsSplit(m.code, |s.code|, |a.draft.code|, |m.code|);
    CallsNone(m.code, |a.draft.code|, |m.code|);
    if st.elseBody == [] {
      assert ListCallees(fns, st.elseBody, level + 1).value == {};
    } else {
      ListCalls(fp, fns, ret, m, base, st.elseBody, depth + 1, level + 1);
      var e := LowerList(fp, fns, ret, m, st.elseBody, depth + 1).value;
      CallsJoin(s, m, e.draft);
      assert !a.ends ==> e.draft.code[|a.draft.code|] == m.code[|a.draft.code|];
      CallsSame(r.draft.code, e.draft.code, |s.code|, |e.draft.code|);
    }
  }

  lemma {:induction false} ListCalls(
      fp: FloatModel, fns: seq<Function>, ret: Type, s: Draft, base: nat, ss: seq<Stmt>, depth: nat, level: nat)
    requires Ready(fp, fns, s, base)
    requires LowerList(fp, fns, ret, s, ss, depth).Some? && ListCallees(fns, ss, level).Some?
    ensures var t := LowerList(fp, fns, ret, s, ss, depth).value.draft;
            CodeCalls(t.code, |s.code|, |t.code|) == ListCallees(fns, ss, level).value
    decreases ss
  {
    if ss != [] {
      var r := LowerStmt(fp, fns, ret, s, ss[0], depth).value;
      LowerStmtOk(fp, fns, ret, s, base, ss[0], depth);
      StmtCalls(fp, fns, ret, s, base, ss[0], depth, level);
      if |ss| > 1 {
        LowerListOk(fp, fns, ret, r.draft, base, ss[1..], depth);
        ListCalls(fp, fns, ret, r.draft, base, ss[1..], depth, level);
        CallsJoin(s, r.draft, LowerList(fp, fns, ret, s, ss, depth).value.draft);
      } else {
        assert ss[1..] == [];
      }
    }
  }

  lemma {:induction false} FunctionCalls(fp: FloatModel, fns: seq<Function>, s: Draft, f: nat, row: set<nat>)
    requires fp.WellBehaved() && DistinctIds(fns) && Small(s) && f < |fns|
    requires LowerFunction(fp, fns, s, f).Some? && ListCallees(fns, fns[f].body, 0) == Some(row)
    ensures var t := LowerFunction(fp, fns, s, f).value;
            CodeCalls(t.code, |s.code|, |t.code|) == row
  {
    var o := OpenFunction(s, f, fns[f].params).value;
    OpenFunctionOk(s, f, fns[f].params);
    LowerListOk(fp, fns, fns[f].returnType, o, |s.types|, fns[f].body, 0);
    ListCalls(fp, fns, fns[f].returnType, o, |s.types|, fns[f].body, 0, 0);
    CallsEmit(s, s, o, Instruction(FunctionMark, f, |s.types|, |fns[f].params|, ZERO));
    CallsJoin(s, o, LowerFunction(fp, fns, s, f).value);
  }

  // ----- the function table of compiled code -----

  /** What the lowering of all functions has established, apart from their call graph. */
  ghost predicate LaidOut(fp: FloatModel, fns: seq<Function>, pre: seq<Draft>, p: Bytecode.Program) {
    && fp.WellBehaved() && 0 < |fns| <= MAX_FUNCTIONS && DistinctIds(fns)
    && Layout(fp, fns, pre) && p == ProgramOf(fns, pre[|fns|]) && Small(pre[|fns|])
  }

  lemma {:induction false} TableAccepted(fp: FloatModel, fns: seq<Function>, pre: seq<Draft>, p: Bytecode.Program)
    requires LaidOut(fp, fns, pre, p)
    ensures |p.code| > 0 && TableStatus(p) == Ok && |Table(p)| == |fns|
    ensures forall f | 0 <= f < |fns| :: Table(p)[f] == InfoOf(fns, pre, f)
  {
    MarkersOfLayout(fp, fns, pre);
    TableOfLayout(fp, fns, pre, p);
    var ms := Markers(p.code, 0);
    forall f | 0 <= f < |ms|
      ensures MarkerOk(p, ms, f) && Table(p)[f].start < Table(p)[f].end
    {
      MarkerAt(fp, fns, pre, f);
      LayoutExtends(fp, fns, pre, f + 1, |fns|);
      assert Laid(fp, fns, pre, f);
    }
    MarkerAt(fp, fns, pre, 0);
  }

  lemma {:induction false} SomeRegister(fp: FloatModel, fns: seq<Function>, pre: seq<Draft>, p: Bytecode.Program)
    requires LaidOut(fp, fns, pre, p)
    ensures p.registerCount >= 1
  {
    LayoutExtends(fp, fns, pre, 1, |fns|);
    assert Laid(fp, fns, pre, 0);
    BodyAt(fp, fns, pre, 0, |pre[1].code| - 1);
  }

  /** Positions of function f belong to f. */
  lemma {:induction false} OwnerOfLayout(fp: FloatModel, fns: seq<Function>, pre: seq<Draft>, p: Bytecode.Program, f: nat, pc: nat)
    requires LaidOut(fp, fns, pre, p) && f < |fns|
    requires |Table(p)| == |fns| && Table(p)[f] == InfoOf(fns, pre, f) && Tiled(p, Table(p)) && pc < |p.code|
    ensures OwnerOf(Table(p), pc) == f <==> |pre[f].code| <= pc < |pre[f + 1].code|
  {
    OwnerIs(p, Table(p), f, pc);
  }

  // ----- instructions of compiled code -----

  lemma {:induction false} MarkInstruction(fp: FloatModel, fns: seq<Function>, pre: seq<Draft>, p: Bytecode.Program, f: nat)
    requires LaidOut(fp, fns, pre, p) && f < |fns| && BasesOk(p, Table(p))
    requires |Table(p)| == |fns| && Table(p)[f] == InfoOf(fns, pre, f)
    ensures |pre[f].code| < |p.code| && InstructionOk(fp, p, |pre[f].code|)
  {
    MarkerAt(fp, fns, pre, f);
    LayoutExtends(fp, fns, pre, f + 1, |fns|);
    assert Laid(fp, fns, pre, f);
  }

  /** Instructions without control flow pass both checks. */
  lemma {:induction false} ExprInstruction(fp: FloatModel, fns: seq<Function>, p: Bytecode.Program, pc: nat)
    requires pc < |p.code| && BasesOk(p, Table(p)) && p.minor == TYPED_MINOR && |p.registerTypes| == p.registerCount
    requires ExprIns(fp, fns, p.registerTypes, p.code[pc]) && !p.code[pc].op.Call? && fp.WellBehaved()
    requires forall r | 0 <= r < |p.registerTypes| :: IsTag(p.registerTypes[r])
    ensures InstructionOk(fp, p, pc)
  {
    var ins := p.code[pc];
    if ins.op.Test? { assert IsTag(p.registerTypes[ins.b]); }
  }

  lemma {:induction false} CallInstruction(fp: FloatModel, fns: seq<Function>, pre: seq<Draft>, p: Bytecode.Program, pc: nat)
    requires LaidOut(fp, fns, pre, p) && pc < |p.code| && BasesOk(p, Table(p))
    requires |Table(p)| == |fns| && forall f | 0 <= f < |fns| :: Table(p)[f] == InfoOf(fns, pre, f)
    requires ExprIns(fp, fns, p.registerTypes, p.code[pc]) && p.code[pc].op.Call?
    ensures InstructionOk(fp, p, pc)
  {
    var ins, types := p.code[pc], p.registerTypes;
    var g := ins.b;
    LayoutExtends(fp, fns, pre, g + 1, |fns|);
    assert Laid(fp, fns, pre, g);
    assert Table(p)[g] == InfoOf(fns, pre, g);
    var params := fns[g].params;
    forall i | 0 <= i < |params|
      ensures SameTag(types, ins.c, |pre[g].types|, i)
    {
      assert types[ins.c + i] == Tag(params[i].ty);
      assert pre[g + 1].types[|pre[g].types| + i] == Tag(params[i].ty);
    }
  }

  lemma {:induction false} BodyInstruction(fp: FloatModel, fns: seq<Function>, pre: seq<Draft>, p: Bytecode.Program, f: nat, pc: nat)
    requires LaidOut(fp, fns, pre, p) && f < |fns| && Tiled(p, Table(p)) && BasesOk(p, Table(p))
    requires |Table(p)| == |fns| && forall f | 0 <= f < |fns| :: Table(p)[f] == InfoOf(fns, pre, f)
    requires |pre[f].code| < pc < |pre[f + 1].code| && pc < |p.code|
    ensures InstructionOk(fp, p, pc)
  {
    BodyAt(fp, fns, pre, f, pc);
    OwnerOfLayout(fp, fns, pre, p, f, pc);
    var ins := p.code[pc];
    if ins.op.Jump? || ins.op.JumpIfFalse? {
      var target := if ins.op.Jump? then ins.a else ins.b;
      OwnerOfLayout(fp, fns, pre, p, f, target);
      BodyAt(fp, fns, pre, f, target);
    } else if ins.op.Call? {
      CallInstruction(fp, fns, pre, p, pc);
    } else if !ins.op.Return? {
      ExprInstruction(fp, fns, p, pc);
    }
  }

  // ----- control flow of compiled code -----

  /** Every branch leads forward inside its function. */
  lemma {:induction false} SuccessorsForward(fp: FloatModel, fns: seq<Function>, pre: seq<Draft>, p: Bytecode.Program, f: nat, pc: nat)
    requires LaidOut(fp, fns, pre, p) && f < |fns| && |pre[f].code| < pc < |pre[f + 1].code|
    ensures pc < |p.code| && forall to | to in Successors(p, pc) :: pc < to < |pre[f + 1].code|
    ensures !p.code[pc].op.FunctionMark? && (!p.code[pc].op.Return? ==> pc + 1 < |pre[f + 1].code|)
    ensures !p.code[pc].op.Return? ==> Successors(p, pc) != []
  {
    BodyAt(fp, fns, pre, f, pc);
  }

  lemma {:induction false} WalkForward(
      fp: FloatModel, fns: seq<Function>, pre: seq<Draft>, p: Bytecode.Program, f: nat, walk: seq<nat>, i: nat)
    requires LaidOut(fp, fns, pre, p) && f < |fns| && IsWalk(p, |pre[f].code| + 1, walk) && i < |walk|
    ensures |pre[f].code| < walk[i] < |pre[f + 1].code|
    decreases i
  {
    if i == 0 {
      assert Laid(fp, fns, pre, f);
    } else {
      WalkForward(fp, fns, pre, p, f, walk, i - 1);
      SuccessorsForward(fp, fns, pre, p, f, walk[i - 1]);
      assert Follows(p, walk, i);
    }
  }

  /** Going forward ends at a RETURN. */
  lemma {:induction false} ReturnAhead(
      fp: FloatModel, fns: seq<Function>, pre: seq<Draft>, p: Bytecode.Program, f: nat, pc: nat) returns (last: nat)
    requires LaidOut(fp, fns, pre, p) && f < |fns| && |pre[f].code| < pc < |pre[f + 1].code| <= |p.code|
    requires Reachable(p, |pre[f].code| + 1, pc)
    ensures last < |p.code| && Reachable(p, |pre[f].code| + 1, last) && p.code[last].op.Return?
    decreases |pre[f + 1].code| - pc
  {
    SuccessorsForward(fp, fns, pre, p, f, pc);
    last := pc;
    if !p.code[pc].op.Return? {
      var to := Successors(p, pc)[0];
      assert to in Successors(p, pc);
      ReachableNext(p, |pre[f].code| + 1, pc, to);
      last := ReturnAhead(fp, fns, pre, p, f, to);
    }
  }

  lemma {:induction false} PlaceAccepted(
      fp: FloatModel, fns: seq<Function>, pre: seq<Draft>, p: Bytecode.Program, f: nat, pc: nat)
    requires LaidOut(fp, fns, pre, p) && f < |fns| && Tiled(p, Table(p))
    requires |Table(p)| == |fns| && Table(p)[f] == InfoOf(fns, pre, f)
    requires Reachable(p, |pre[f].code| + 1, pc)
    ensures FlowOk(p, Table(p), f, pc)
  {
    var walk :| IsWalk(p, |pre[f].code| + 1, walk) && walk[|walk| - 1] == pc;
    WalkForward(fp, fns, pre, p, f, walk, |walk| - 1);
    SuccessorsForward(fp, fns, pre, p, f, pc);
    OwnerOfLayout(fp, fns, pre, p, f, pc);
    forall to | to in Successors(p, pc)
      ensures to < |p.code| && OwnerOf(Table(p), to) == f
    {
      OwnerOfLayout(fp, fns, pre, p, f, to);
    }
  }

  lemma {:induction false} FlowAccepted(fp: FloatModel, fns: seq<Function>, pre: seq<Draft>, p: Bytecode.Program, f: nat)
    requires LaidOut(fp, fns, pre, p) && f < |fns| && Tiled(p, Table(p))
    requires |Table(p)| == |fns| && Table(p)[f] == InfoOf(fns, pre, f)
    ensures FlowsOk(p, Table(p), f)
  {
    var start := |pre[f].code| + 1;
    LayoutExtends(fp, fns, pre, f + 1, |fns|);
    assert Laid(fp, fns, pre, f);
    forall pc | Reachable(p, start, pc)
      ensures FlowOk(p, Table(p), f, pc)
    {
      PlaceAccepted(fp, fns, pre, p, f, pc);
    }
    ReachableStart(p, start);
    var last := ReturnAhead(fp, fns, pre, p, f, start);
  }

  // ----- the whole program -----

  lemma {:induction false} CodeAccepted(fp: FloatModel, fns: seq<Function>, pre: seq<Draft>, p: Bytecode.Program)
    requires LaidOut(fp, fns, pre, p) && Tiled(p, Table(p)) && BasesOk(p, Table(p))
    requires |Table(p)| == |fns| && forall f | 0 <= f < |fns| :: Table(p)[f] == InfoOf(fns, pre, f)
    ensures forall pc | 0 <= pc < |p.code| :: InstructionOk(fp, p, pc)
  {
    forall pc | 0 <= pc < |p.code|
      ensures InstructionOk(fp, p, pc)
    {
      var f := CodeOwner(fp, fns, pre, |fns|, pc);
      if pc == |pre[f].code| { MarkInstruction(fp, fns, pre, p, f); } else { BodyInstruction(fp, fns, pre, p, f, pc); }
    }
  }

  /** The call graph the verifier reads off the code is the one the compiler has read off the source. */
  lemma {:induction false} CallGraphIsKept(fp: FloatModel, fns: seq<Function>, pre: seq<Draft>, p: Bytecode.Program, g: Graph)
    requires LaidOut(fp, fns, pre, p) && Tiled(p, Table(p)) && SourceGraph(fns, |fns|) == Some(g)
    requires |Table(p)| == |fns| && forall f | 0 <= f < |fns| :: Table(p)[f] == InfoOf(fns, pre, f)
    ensures CallEdges(p, Table(p)) == g
  {
    forall f | 0 <= f < |fns|
      ensures Callees(p, Table(p), f) == g[f]
    {
      assert Laid(fp, fns, pre, f);
      FunctionCalls(fp, fns, pre[f], f, g[f]);
      LayoutExtends(fp, fns, pre, f + 1, |fns|);
      CallsSame(p.code, pre[f + 1].code, |pre[f].code|, |pre[f + 1].code|);
      CalleesAre(fp, fns, pre, p, f);
    }
  }

  lemma {:induction false} CalleesAre(fp: FloatModel, fns: seq<Function>, pre: seq<Draft>, p: Bytecode.Program, f: nat)
    requires LaidOut(fp, fns, pre, p) && Tiled(p, Table(p)) && f < |fns|
    requires |Table(p)| == |fns| && Table(p)[f] == InfoOf(fns, pre, f)
    ensures Callees(p, Table(p), f) == CodeCalls(p.code, |pre[f].code|, |pre[f + 1].code|)
  {
    forall pc | 0 <= pc < |p.code|
      ensures OwnerOf(Table(p), pc) == f <==> |pre[f].code| <= pc < |pre[f + 1].code|
    {
      OwnerOfLayout(fp, fns, pre, p, f, pc);
    }
  }

  /** The compiler never emits code its own verifier rejects. */
  lemma {:induction false} CompiledCodeIsAccepted(fp: FloatModel, hir: ScalarHir, p: Bytecode.Program)
    requires fp.WellBehaved() && Compile(fp, hir) == Some(p)
    ensures VerifyStatus(fp, p) == Ok
  {
    var pre, g, rank := CompiledOf(fp, hir, p);
    var fns := Ordered(hir);
    OrderedFacts(hir);
    TableAccepted(fp, fns, pre, p);
    TableFacts(p);
    LayoutAccepted(fp, fns, pre, p, g, rank);
    AcceptedIff(fp, p);
  }

  lemma {:induction false} LayoutAccepted(
      fp: FloatModel, fns: seq<Function>, pre: seq<Draft>, p: Bytecode.Program, g: Graph, rank: seq<nat>)
    requires LaidOut(fp, fns, pre, p) && Tiled(p, Table(p)) && BasesOk(p, Table(p)) && |Table(p)| == |fns|
    requires forall f | 0 <= f < |fns| :: Table(p)[f] == InfoOf(fns, pre, f)
    requires SourceGraph(fns, |fns|) == Some(g) && IsRank(g, rank)
    ensures p.registerCount >= 1 && Ranked(CallEdges(p, Table(p))) && AllFlowsOk(p, Table(p))
    ensures forall pc | 0 <= pc < |p.code| :: InstructionOk(fp, p, pc)
  {
    SomeRegister(fp, fns, pre, p);
    CodeAccepted(fp, fns, pre, p);
    CallGraphIsKept(fp, fns, pre, p, g);
    FlowsAccepted(fp, fns, pre, p);
  }

  lemma {:induction false} FlowsAccepted(fp: FloatModel, fns: seq<Function>, pre: seq<Draft>, p: Bytecode.Program)
    requires LaidOut(fp, fns, pre, p) && Tiled(p, Table(p)) && |Table(p)| == |fns|
    requires forall f | 0 <= f < |fns| :: Table(p)[f] == InfoOf(fns, pre, f)
    ensures AllFlowsOk(p, Table(p))
  {
    forall f | 0 <= f < |fns|
      ensures FlowsOk(p, Table(p), f)
    {
      FlowAccepted(fp, fns, pre, p, f);
    }
  }
}
