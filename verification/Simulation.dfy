/** Running compiled code follows the reference evaluator: the machine, started where the code of an
    expression or statement begins, reaches its end with the value the evaluator gives, or faults
    where the evaluator faults. */
module Simulation {
  import opened Wrappers
  import opened Floats
  import opened Hir
  import opened Bytecode
  import opened Lowering
  import opened LoweringFacts

  /** A compiled program: `source` is the function list the evaluator looks callees up in, `fns` the
      order they are compiled in, `pre[f]` the draft before function f.  `rank` falls along every call
      and `regRank[r]` is the rank of the function that register r belongs to. */
  datatype World = World(
    fp: FloatModel, source: seq<Function>, fns: seq<Function>, p: Program, maxDepth: nat,
    pre: seq<Draft>, rank: seq<nat>, regRank: seq<nat>)

  // ----- ranked calls -----

  ghost predicate ExprRanked(fns: seq<Function>, rank: seq<nat>, k: nat, e: Expr) {
    match e
    case NumberLiteral(_) => true
    case BooleanLiteral(_) => true
    case Variable(_, _) => true
    case Binary(_, _, left, right) => ExprRanked(fns, rank, k, left) && ExprRanked(fns, rank, k, right)
    case Call(_, callee, args) =>
      && (FunctionIndex(fns, callee).Some? ==>
            FunctionIndex(fns, callee).value < |rank| && rank[FunctionIndex(fns, callee).value] < k)
      && ArgsRanked(fns, rank, k, args)
  }

  ghost predicate ArgsRanked(fns: seq<Function>, rank: seq<nat>, k: nat, args: seq<Expr>) {
    args != [] ==> ExprRanked(fns, rank, k, args[0]) && ArgsRanked(fns, rank, k, args[1..])
  }

  ghost predicate StmtRanked(fns: seq<Function>, rank: seq<nat>, k: nat, s: Stmt) {
    match s
    case Declare(_, _, init) => ExprRanked(fns, rank, k, init)
    case Assign(_, _, value) => ExprRanked(fns, rank, k, value)
    case Return(_, result) => ExprRanked(fns, rank, k, result)
    case If(cond, thenBody, elseBody) =>
      ExprRanked(fns, rank, k, cond) && ListRanked(fns, rank, k, thenBody) && ListRanked(fns, rank, k, elseBody)
  }

  ghost predicate ListRanked(fns: seq<Function>, rank: seq<nat>, k: nat, ss: seq<Stmt>) {
    ss != [] ==> StmtRanked(fns, rank, k, ss[0]) && ListRanked(fns, rank, k, ss[1..])
  }

  // ----- the world -----

  /** What is known of function f of the program. */
  ghost predicate FunctionOk(w: World, f: nat) {
    && f < |w.fns| && |w.pre| == |w.fns| + 1 && |w.rank| == |w.fns| && |w.regRank| == w.p.registerCount
    && LowerFunction(w.fp, w.fns, w.pre[f], f) == Some(w.pre[f + 1])
    && w.pre[f + 1].code <= w.p.code
    && |w.pre[f].types| <= |w.pre[f + 1].types| <= w.p.registerCount
    && Small(w.pre[f])
    && (forall r | |w.pre[f].types| <= r < |w.pre[f + 1].types| :: w.regRank[r] == w.rank[f])
    && w.rank[f] < |w.fns|
    && ListRanked(w.fns, w.rank, w.rank[f], w.fns[f].body)
    && f < |Table(w.p)|
    && Table(w.p)[f].start == |w.pre[f].code| + 1
    && Table(w.p)[f].base == |w.pre[f].types|
    && Table(w.p)[f].arity == |w.fns[f].params| <= MAX_REGISTERS
    && Lookup(w.source, w.fns[f].id) == Some(w.fns[f])
  }

  ghost predicate WorldOk(w: World) {
    && w.fp.WellBehaved()
    && |w.fns| <= w.maxDepth + 1
    && forall f | 0 <= f < |w.fns| :: FunctionOk(w, f)
  }

  ghost function Base(w: World, f: nat): nat
    requires FunctionOk(w, f)
  {
    |w.pre[f].types|
  }

  ghost function Top(w: World, f: nat): nat
    requires FunctionOk(w, f)
  {
    |w.pre[f + 1].types|
  }

  /** From `from` on, the program holds the code of the draft. */
  ghost predicate Holds(w: World, s: Draft, from: nat) {
    |s.code| <= |w.p.code| && forall pc | from <= pc < |s.code| :: w.p.code[pc] == s.code[pc]
  }

  /** The bound variables are in their registers. */
  ghost predicate Match(locals: seq<Local>, env: Env, regs: seq<Double>) {
    && (forall id | id in env :: FindLocal(locals, id).Some?)
    && forall i | 0 <= i < |locals| && locals[i].id in env ::
         && locals[i].reg < |regs|
         && env[locals[i].id].Type() == locals[i].ty
         && regs[locals[i].reg] == env[locals[i].id].Repr()
  }

  /** Only registers lo..hi of function f and registers of functions of lower rank differ. */
  ghost predicate Keeps(w: World, f: nat, lo: nat, hi: nat, regs: seq<Double>, regs': seq<Double>)
    requires FunctionOk(w, f)
  {
    && |regs'| == |regs| == w.p.registerCount
    && forall r | 0 <= r < |regs| && !(lo <= r < hi) && w.regRank[r] >= w.rank[f] :: regs'[r] == regs[r]
  }

  /** A state of function f, where the code that follows the draft is about to run. */
  ghost predicate At(w: World, f: nat, s: Draft, env: Env, st: State) {
    && FunctionOk(w, f)
    && st.pc == |s.code| && |st.regs| == w.p.registerCount
    && Match(s.locals, env, st.regs)
    && |st.frames| + w.rank[f] < |w.fns|
  }

  /** Mentioned where the steps behind `Reaches` matter; elsewhere it is used as a relation. */
  ghost predicate Steps(n: nat) { true }

  /** The machine gets from st to st' in n steps. */
  ghost predicate Reaches(w: World, st: State, n: nat, st': State) {
    forall k: nat {:trigger Steps(k)} | k == n && Steps(k) :: StepsTo(w.fp, w.p, w.maxDepth, st, k) == Some(st')
  }

  /** n steps on, the machine stops with a division by zero or a number that is not finite. */
  ghost predicate FaultsAt(w: World, st: State, n: nat, st': State) {
    && Reaches(w, st, n, st')
    && Step(w.fp, w.p, w.maxDepth, st').Halted?
    && IsFault(Step(w.fp, w.p, w.maxDepth, st').halt)
  }

  lemma {:induction false} ReachesSteps(w: World, st: State, n: nat, st': State)
    requires Reaches(w, st, n, st')
    ensures StepsTo(w.fp, w.p, w.maxDepth, st, n) == Some(st')
  {
    assert Steps(n);
  }

  lemma {:induction false} ReachesSelf(w: World, st: State)
    ensures Reaches(w, st, 0, st)
  {
  }

  lemma {:induction false} ReachesTrans(w: World, st: State, m: nat, mid: State, n: nat, last: State)
    requires Reaches(w, st, m, mid) && Reaches(w, mid, n, last)
    ensures Reaches(w, st, m + n, last)
  {
    ReachesSteps(w, st, m, mid);
    ReachesSteps(w, mid, n, last);
    StepsCompose(w.fp, w.p, w.maxDepth, st, m, mid, n, last);
  }

  lemma {:induction false} ReachesStep(w: World, st: State, m: nat, mid: State, last: State)
    requires Reaches(w, st, m, mid) && Step(w.fp, w.p, w.maxDepth, mid) == Running(last)
    ensures Reaches(w, st, m + 1, last)
  {
    assert StepsTo(w.fp, w.p, w.maxDepth, mid, 1) == Some(last) by {
      assert StepsTo(w.fp, w.p, w.maxDepth, last, 0) == Some(last);
    }
    ReachesTrans(w, st, m, mid, 1, last);
  }

  /** Registers of the function below `lo` are kept, so its variables are. */
  lemma {:induction false} MatchKept(w: World, f: nat, s: Draft, env: Env, lo: nat, hi: nat, regs: seq<Double>, regs': seq<Double>)
    requires FunctionOk(w, f) && LocalsOk(s, Base(w, f)) && Match(s.locals, env, regs)
    requires |s.types| <= lo && |s.types| <= Top(w, f)
    requires Keeps(w, f, lo, hi, regs, regs')
    ensures Match(s.locals, env, regs')
  {
  }

  /** More bindings change nothing for an environment that does not use them. */
  lemma {:induction false} MatchWider(s: Draft, t: Draft, base: nat, env: Env, regs: seq<Double>)
    requires Match(s.locals, env, regs) && s.locals <= t.locals && LocalsOk(t, base)
    ensures Match(t.locals, env, regs)
  {
    forall id | id in env
      ensures FindLocal(t.locals, id).Some?
    {
      FindLocalCorrect(s.locals, id);
      var i :| 0 <= i < |s.locals| && s.locals[i].id == id;
      assert t.locals[i].id == id;
      FindLocalCorrect(t.locals, id);
    }
    forall i | 0 <= i < |t.locals| && t.locals[i].id in env
      ensures i < |s.locals|
    {
      var id := t.locals[i].id;
      FindLocalCorrect(s.locals, id);
      var j :| 0 <= j < |s.locals| && s.locals[j].id == id;
      assert t.locals[j].id == id;
    }
  }

  /** What a variable in scope evaluates to is in the register the lowering finds for it. */
  lemma {:induction false} FoundLocal(s: Draft, base: nat, env: Env, regs: seq<Double>, id: nat)
    requires Match(s.locals, env, regs) && LocalsOk(s, base)
    requires FindLocal(s.locals, id).Some? && id in env
    ensures var l := FindLocal(s.locals, id).value;
            l.reg < |regs| && env[id].Type() == l.ty && regs[l.reg] == env[id].Repr()
  {
    FindLocalCorrect(s.locals, id);
  }

  // ----- expressions -----

  /** The program holds the code from draft s to draft t, all of it in function f. */
  ghost predicate Site(w: World, f: nat, s: Draft, t: Draft) {
    && WorldOk(w) && f < |w.fns| && FunctionOk(w, f)
    && LocalsOk(s, Base(w, f)) && Small(s)
    && Extends(s, t) && Holds(w, t, |s.code|) && |t.types| <= Top(w, f)
  }

  /** A part of a site is a site. */
  lemma {:induction false} SubSite(w: World, f: nat, s: Draft, mid: Draft, t: Draft)
    requires Site(w, f, s, t) && Extends(s, mid) && Extends(mid, t)
    requires Small(mid) && LocalsOk(mid, Base(w, f))
    ensures Site(w, f, s, mid) && Site(w, f, mid, t)
  {
    forall pc | |s.code| <= pc < |mid.code|
      ensures w.p.code[pc] == mid.code[pc]
    {
      assert t.code[pc] == mid.code[pc];
    }
  }

  ghost predicate ExprDone(w: World, f: nat, s: Draft, ty: Type, r: Lowered, v: Value, st: State, n: nat, st': State)
    requires FunctionOk(w, f)
  {
    && Reaches(w, st, n, st')
    && st'.pc == |r.draft.code| && st'.frames == st.frames
    && r.reg < |st'.regs| && st'.regs[r.reg] == v.Repr() && v.Type() == ty
    && Keeps(w, f, |s.types|, |r.draft.types|, st.regs, st'.regs)
  }

  ghost predicate ExprSimulated(
      w: World, f: nat, s: Draft, ty: Type, r: Lowered, out: Hir.Outcome<Value>, st: State, n: nat, st': State)
    requires FunctionOk(w, f)
  {
    && (out.Done? ==> ExprDone(w, f, s, ty, r, out.value, st, n, st'))
    && (out.Fault? ==> FaultsAt(w, st, n, st'))
  }

  lemma {:induction false} KeepsTrans(
      w: World, f: nat, lo: nat, mid: nat, hi: nat, regs: seq<Double>, regs': seq<Double>, regs'': seq<Double>)
    requires FunctionOk(w, f) && lo <= mid <= hi
    requires Keeps(w, f, lo, mid, regs, regs') && Keeps(w, f, mid, hi, regs', regs'')
    ensures Keeps(w, f, lo, hi, regs, regs'')
  {
  }

  /** The instruction that fills a fresh register with v. */
  lemma {:induction false} ProduceRuns(
      w: World, f: nat, s: Draft, t: Draft, ty: Type, op: Opcode, b: nat, c: nat, imm: Double, v: Value,
      st: State, n: nat, mid: State)
    requires FunctionOk(w, f) && Extends(s, t) && Produce(t, ty, op, b, c, imm).Some?
    requires Holds(w, Produce(t, ty, op, b, c, imm).value.draft, |t.code|)
    requires |t.types| < w.p.registerCount
    requires Reaches(w, st, n, mid) && mid.pc == |t.code| && mid.frames == st.frames
    requires Keeps(w, f, |s.types|, |t.types|, st.regs, mid.regs)
    requires v.Type() == ty
    requires Step(w.fp, w.p, w.maxDepth, mid) == Put(mid, |t.types|, v.Repr())
    ensures ExprDone(w, f, s, ty, Produce(t, ty, op, b, c, imm).value, v, st, n + 1,
                     Put(mid, |t.types|, v.Repr()).state)
  {
    ReachesStep(w, st, n, mid, Put(mid, |t.types|, v.Repr()).state);
  }

  /** Where a produced instruction is in the program. */
  lemma {:induction false} ProducedAt(w: World, t: Draft, ty: Type, op: Opcode, b: nat, c: nat, imm: Double)
    requires Produce(t, ty, op, b, c, imm).Some?
    requires Holds(w, Produce(t, ty, op, b, c, imm).value.draft, |t.code|)
    ensures |t.code| < |w.p.code| && w.p.code[|t.code|] == Instruction(op, |t.types|, b, c, imm)
  {
  }

  /** An operator instruction does what the operator means. */
  lemma {:induction false} OperatorStep(
      fp: FloatModel, p: Bytecode.Program, maxDepth: nat, st: State, ty: Type, op: Operator, lt: Type, rt: Type,
      x: Value, y: Value)
    requires fp.WellBehaved() && BinaryTypes(ty, op, lt, rt) && x.Type() == lt && y.Type() == rt
    requires st.pc < |p.code| && p.code[st.pc].op == OpcodeOf(op)
    requires p.code[st.pc].a < |st.regs| && p.code[st.pc].b < |st.regs| && p.code[st.pc].c < |st.regs|
    requires st.regs[p.code[st.pc].b] == x.Repr() && st.regs[p.code[st.pc].c] == y.Repr()
    ensures match ApplyOperator(fp, op, x, y)
            case Done(v) => v.Type() == ty && Step(fp, p, maxDepth, st) == Put(st, p.code[st.pc].a, v.Repr())
            case Fault => Step(fp, p, maxDepth, st).Halted? && IsFault(Step(fp, p, maxDepth, st).halt)
            case Stuck => false
  {
  }

  lemma {:induction false} SimExpr(
      w: World, f: nat, d: nat, s: Draft, e: Expr, depth: nat, env: Env, st: State)
      returns (n: nat, st': State)
    requires LowerExpr(w.fp, w.fns, s, e, depth).Some?
    requires Site(w, f, s, LowerExpr(w.fp, w.fns, s, e, depth).value.draft) && At(w, f, s, env, st)
    requires ExprRanked(w.fns, w.rank, w.rank[f], e)
    requires !EvalExpr(w.fp, w.source, d, env, e).Stuck?
    ensures ExprSimulated(w, f, s, e.Type(), LowerExpr(w.fp, w.fns, s, e, depth).value,
                          EvalExpr(w.fp, w.source, d, env, e), st, n, st')
    decreases d, e
  {
    var r := LowerExpr(w.fp, w.fns, s, e, depth).value;
    var out := EvalExpr(w.fp, w.source, d, env, e);
    match e
    case NumberLiteral(x) =>
      n, st' := SimConstant(w, f, s, Number, ConstF64, x, Num(x), st);
    case BooleanLiteral(b) =>
      n, st' := SimConstant(w, f, s, Boolean, ConstBool, Truth(b), Bool(b), st);
    case Variable(ty, id) =>
      FoundLocal(s, Base(w, f), env, st.regs, id);
      n, st' := 0, st;
      ReachesSelf(w, st);
    case Binary(ty, op, left, right) =>
      n, st' := SimBinary(w, f, d, s, e, depth, env, st);
    case Call(ty, callee, args) =>
      n, st' := SimCallExpr(w, f, d, s, e, depth, env, st);
  }

  lemma {:induction false} SimConstant(
      w: World, f: nat, s: Draft, ty: Type, op: Opcode, imm: Double, v: Value, st: State)
      returns (n: nat, st': State)
    requires Produce(s, ty, op, 0, 0, imm).Some?
    requires Site(w, f, s, Produce(s, ty, op, 0, 0, imm).value.draft)
    requires st.pc == |s.code| && |st.regs| == w.p.registerCount
    requires op.ConstF64? || op.ConstBool?
    requires v.Type() == ty && v.Repr() == imm
    ensures ExprDone(w, f, s, ty, Produce(s, ty, op, 0, 0, imm).value, v, st, n, st')
  {
    ProducedAt(w, s, ty, op, 0, 0, imm);
    ReachesSelf(w, st);
    ProduceRuns(w, f, s, s, ty, op, 0, 0, imm, v, st, 0, st);
    n, st' := 1, Put(st, |s.types|, imm).state;
  }

  /** The code of a binary expression: left operand, right operand, one instruction. */
  lemma {:induction false} BinarySites(w: World, f: nat, s: Draft, e: Expr, depth: nat)
    requires e.Binary? && LowerExpr(w.fp, w.fns, s, e, depth).Some?
    requires Site(w, f, s, LowerExpr(w.fp, w.fns, s, e, depth).value.draft)
    ensures var x := LowerExpr(w.fp, w.fns, s, e.left, depth + 1).value;
            var y := LowerExpr(w.fp, w.fns, x.draft, e.right, depth + 1).value;
            && Site(w, f, s, x.draft) && Site(w, f, x.draft, y.draft)
            && x.draft.locals == s.locals && y.draft.locals == s.locals
            && Base(w, f) <= x.reg < |x.draft.types| && y.reg < |y.draft.types|
            && Extends(s, y.draft) && |y.draft.types| < Top(w, f)
            && Holds(w, LowerExpr(w.fp, w.fns, s, e, depth).value.draft, |y.draft.code|)
  {
    var r := LowerExpr(w.fp, w.fns, s, e, depth).value;
    LowerOperandsOk(w.fp, w.fns, s, Base(w, f), e, depth + 1);
    var x := LowerExpr(w.fp, w.fns, s, e.left, depth + 1).value;
    var y := LowerExpr(w.fp, w.fns, x.draft, e.right, depth + 1).value;
    SubSite(w, f, s, x.draft, r.draft);
    SubSite(w, f, x.draft, y.draft, r.draft);
  }

  lemma {:induction false} SimBinary(
      w: World, f: nat, d: nat, s: Draft, e: Expr, depth: nat, env: Env, st: State)
      returns (n: nat, st': State)
    requires e.Binary? && LowerExpr(w.fp, w.fns, s, e, depth).Some?
    requires Site(w, f, s, LowerExpr(w.fp, w.fns, s, e, depth).value.draft) && At(w, f, s, env, st)
    requires ExprRanked(w.fns, w.rank, w.rank[f], e)
    requires !EvalExpr(w.fp, w.source, d, env, e).Stuck?
    ensures ExprSimulated(w, f, s, e.Type(), LowerExpr(w.fp, w.fns, s, e, depth).value,
                          EvalExpr(w.fp, w.source, d, env, e), st, n, st')
    decreases d, e, 0
  {
    BinarySites(w, f, s, e, depth);
    var Binary(ty, op, left, right) := e;
    var x := LowerExpr(w.fp, w.fns, s, left, depth + 1).value;
    var y := LowerExpr(w.fp, w.fns, x.draft, right, depth + 1).value;
    var vx := EvalExpr(w.fp, w.source, d, env, left);
    n, st' := SimExpr(w, f, d, s, left, depth + 1, env, st);
    if vx.Done? {
      var n1, st1 := n, st';
      MatchKept(w, f, s, env, |s.types|, |x.draft.types|, st.regs, st1.regs);
      var vy := EvalExpr(w.fp, w.source, d, env, right);
      n, st' := SimExpr(w, f, d, x.draft, right, depth + 1, env, st1);
      ReachesTrans(w, st, n1, st1, n, st');
      n := n1 + n;
      if vy.Done? {
        KeepsTrans(w, f, |s.types|, |x.draft.types|, |y.draft.types|, st.regs, st1.regs, st'.regs);
        n, st' := SimOperator(w, f, s, y.draft, ty, op, left.Type(), right.Type(), x.reg, y.reg,
                              vx.value, vy.value, st, n, st');
      }
    }
  }

  lemma {:induction false} SimOperator(
      w: World, f: nat, s: Draft, t: Draft, ty: Type, op: Operator, lt: Type, rt: Type, b: nat, c: nat,
      x: Value, y: Value, st: State, m: nat, mid: State)
      returns (n: nat, st': State)
    requires FunctionOk(w, f) && w.fp.WellBehaved() && Extends(s, t) && BinaryTypes(ty, op, lt, rt)
    requires x.Type() == lt && y.Type() == rt
    requires Produce(t, ty, OpcodeOf(op), b, c, ZERO).Some? && |t.types| < w.p.registerCount
    requires Holds(w, Produce(t, ty, OpcodeOf(op), b, c, ZERO).value.draft, |t.code|)
    requires Reaches(w, st, m, mid) && mid.pc == |t.code| && mid.frames == st.frames
    requires Keeps(w, f, |s.types|, |t.types|, st.regs, mid.regs)
    requires b < |mid.regs| && c < |mid.regs| && mid.regs[b] == x.Repr() && mid.regs[c] == y.Repr()
    ensures ExprSimulated(w, f, s, ty, Produce(t, ty, OpcodeOf(op), b, c, ZERO).value,
                          ApplyOperator(w.fp, op, x, y), st, n, st')
  {
    ProducedAt(w, t, ty, OpcodeOf(op), b, c, ZERO);
    OperatorStep(w.fp, w.p, w.maxDepth, mid, ty, op, lt, rt, x, y);
    var v := ApplyOperator(w.fp, op, x, y);
    n, st' := m, mid;
    if v.Done? {
      ProduceRuns(w, f, s, t, ty, OpcodeOf(op), b, c, ZERO, v.value, st, m, mid);
      n, st' := m + 1, Put(mid, |t.types|, v.value.Repr()).state;
    }
  }

  // ----- calls -----

  ghost predicate ArgsDone(
      w: World, f: nat, s: Draft, params: seq<Param>, r: LoweredArgs, vs: seq<Value>, st: State, n: nat, st': State)
    requires FunctionOk(w, f)
  {
    && Reaches(w, st, n, st')
    && st'.pc == |r.draft.code| && st'.frames == st.frames
    && |vs| == |params| == |r.regs|
    && (forall i | 0 <= i < |vs| :: ArgIn(st'.regs, r.regs[i], vs[i]) && vs[i].Type() == params[i].ty)
    && Keeps(w, f, |s.types|, |r.draft.types|, st.regs, st'.regs)
  }

  ghost predicate ArgIn(regs: seq<Double>, reg: nat, v: Value) {
    reg < |regs| && regs[reg] == v.Repr()
  }

  /** The code of a non-empty argument list: the first argument, then the others. */
  lemma {:induction false} ArgsSites(w: World, f: nat, s: Draft, args: seq<Expr>, params: seq<Param>, depth: nat)
    requires args != [] && |args| == |params| && LowerArgs(w.fp, w.fns, s, args, params, depth).Some?
    requires Site(w, f, s, LowerArgs(w.fp, w.fns, s, args, params, depth).value.draft)
    ensures var x := LowerExpr(w.fp, w.fns, s, args[0], depth).value;
            var xs := LowerArgs(w.fp, w.fns, s, args, params, depth).value;
            && Site(w, f, s, x.draft) && Site(w, f, x.draft, xs.draft)
            && x.draft.locals == s.locals && Base(w, f) <= x.reg < |x.draft.types|
  {
    var x := LowerExpr(w.fp, w.fns, s, args[0], depth).value;
    LowerExprOk(w.fp, w.fns, s, Base(w, f), args[0], depth);
    LocalsOkExtends(s, x.draft, Base(w, f));
    LowerArgsOk(w.fp, w.fns, x.draft, Base(w, f), args[1..], params[1..], depth);
    SubSite(w, f, s, x.draft, LowerArgs(w.fp, w.fns, s, args, params, depth).value.draft);
  }

  lemma {:induction false} SimArgs(
      w: World, f: nat, d: nat, s: Draft, args: seq<Expr>, params: seq<Param>, depth: nat, env: Env, st: State)
      returns (n: nat, st': State)
    requires |args| == |params| && LowerArgs(w.fp, w.fns, s, args, params, depth).Some?
    requires Site(w, f, s, LowerArgs(w.fp, w.fns, s, args, params, depth).value.draft) && At(w, f, s, env, st)
    requires ArgsRanked(w.fns, w.rank, w.rank[f], args)
    requires !EvalArgs(w.fp, w.source, d, env, args).Stuck?
    ensures var out := EvalArgs(w.fp, w.source, d, env, args);
            var r := LowerArgs(w.fp, w.fns, s, args, params, depth).value;
            && (out.Done? ==> ArgsDone(w, f, s, params, r, out.value, st, n, st'))
            && (out.Fault? ==> FaultsAt(w, st, n, st'))
    decreases d, args, 0
  {
    if args == [] {
      n, st' := 0, st;
      ReachesSelf(w, st);
    } else {
      ArgsSites(w, f, s, args, params, depth);
      var x := LowerExpr(w.fp, w.fns, s, args[0], depth).value;
      var r := LowerArgs(w.fp, w.fns, x.draft, args[1..], params[1..], depth).value;
      var v := EvalExpr(w.fp, w.source, d, env, args[0]);
      n, st' := SimExpr(w, f, d, s, args[0], depth, env, st);
      if v.Done? {
        var n1, st1 := n, st';
        MatchKept(w, f, s, env, |s.types|, |x.draft.types|, st.regs, st1.regs);
        var vs := EvalArgs(w.fp, w.source, d, env, args[1..]);
        n, st' := SimArgs(w, f, d, x.draft, args[1..], params[1..], depth, env, st1);
        ReachesTrans(w, st, n1, st1, n, st');
        n := n1 + n;
        if vs.Done? {
          JoinArgs(w, f, s, x, r, params, v.value, vs.value, st, st1, n, st');
        }
      }
    }
  }

  /** The first argument is still in its register when the others are done. */
  lemma {:induction false} JoinArgs(
      w: World, f: nat, s: Draft, x: Lowered, r: LoweredArgs, params: seq<Param>, v: Value, vs: seq<Value>,
      st: State, mid: State, n: nat, st': State)
    requires FunctionOk(w, f) && params != [] && |s.types| <= |x.draft.types| <= |r.draft.types| <= Top(w, f)
    requires Base(w, f) <= x.reg < |x.draft.types| && ArgIn(mid.regs, x.reg, v) && v.Type() == params[0].ty
    requires Reaches(w, st, n, st') && st'.pc == |r.draft.code| && st'.frames == st.frames
    requires |vs| == |params| - 1 == |r.regs|
    requires forall i | 0 <= i < |vs| :: ArgIn(st'.regs, r.regs[i], vs[i]) && vs[i].Type() == params[1..][i].ty
    requires Keeps(w, f, |s.types|, |x.draft.types|, st.regs, mid.regs)
    requires Keeps(w, f, |x.draft.types|, |r.draft.types|, mid.regs, st'.regs)
    ensures ArgsDone(w, f, s, params, LoweredArgs(r.draft, [x.reg] + r.regs), [v] + vs, st, n, st')
  {
    KeepsTrans(w, f, |s.types|, |x.draft.types|, |r.draft.types|, st.regs, mid.regs, st'.regs);
    var regs, values := [x.reg] + r.regs, [v] + vs;
    forall i | 0 <= i < |values|
      ensures ArgIn(st'.regs, regs[i], values[i]) && values[i].Type() == params[i].ty
    {
      if i > 0 {
        assert ArgIn(st'.regs, r.regs[i - 1], vs[i - 1]) && vs[i - 1].Type() == params[1..][i - 1].ty;
      }
    }
  }

  /** The moves fill fresh registers and touch no other. */
  lemma {:induction false} SimMoves(
      w: World, s: Draft, params: seq<Param>, regs: seq<nat>, st: State)
      returns (n: nat, st': State)
    requires |params| == |regs| && EmitMoves(s, params, regs).Some?
    requires var t := EmitMoves(s, params, regs).value;
             Holds(w, t, |s.code|) && |t.types| == |s.types| + |regs| <= |st.regs|
    requires st.pc == |s.code| && forall i | 0 <= i < |regs| :: regs[i] < |s.types|
    ensures var t := EmitMoves(s, params, regs).value;
            && Reaches(w, st, n, st')
            && st'.pc == |t.code| && st'.frames == st.frames && |st'.regs| == |st.regs|
            && (forall i | 0 <= i < |regs| :: st'.regs[|s.types| + i] == st.regs[regs[i]])
            && (forall r | 0 <= r < |st.regs| && !(|s.types| <= r < |t.types|) :: st'.regs[r] == st.regs[r])
    decreases |regs|
  {
    if regs == [] {
      n, st' := 0, st;
      ReachesSelf(w, st);
    } else {
      var x := Produce(s, params[0].ty, Move, regs[0], 0, ZERO).value;
      var t := EmitMoves(s, params, regs).value;
      EmitMovesGrows(x.draft, params[1..], regs[1..]);
      assert w.p.code[|s.code|] == t.code[|s.code|] == Instruction(Move, |s.types|, regs[0], 0, ZERO);
      var mid := Put(st, |s.types|, st.regs[regs[0]]).state;
      ReachesSelf(w, st);
      ReachesStep(w, st, 0, st, mid);
      n, st' := SimMoves(w, x.draft, params[1..], regs[1..], mid);
      ReachesTrans(w, st, 1, mid, n, st');
      n := 1 + n;
      forall i | 0 <= i < |regs|
        ensures st'.regs[|s.types| + i] == st.regs[regs[i]]
      {
        if i > 0 {
          assert st'.regs[|x.draft.types| + (i - 1)] == mid.regs[regs[1..][i - 1]];
        }
      }
    }
  }

  lemma {:induction false} EmitMovesGrows(s: Draft, params: seq<Param>, regs: seq<nat>)
    requires |params| == |regs| && EmitMoves(s, params, regs).Some?
    ensures var t := EmitMoves(s, params, regs).value;
            Extends(s, t) && |t.types| == |s.types| + |regs| && |t.code| == |s.code| + |regs|
    decreases |regs|
  {
    if regs != [] {
      EmitMovesGrows(Produce(s, params[0].ty, Move, regs[0], 0, ZERO).value.draft, params[1..], regs[1..]);
    }
  }

  // ----- function bodies -----

  /** Distinct parameters hold the values they are given. */
  lemma {:induction false} BindParamsAt(params: seq<Param>, values: seq<Value>)
    requires |params| == |values|
    requires forall i, j | 0 <= i < j < |params| :: params[i].id != params[j].id
    ensures forall i | 0 <= i < |params| :: params[i].id in BindParams(params, values)
                                         && BindParams(params, values)[params[i].id] == values[i]
    ensures forall id | id in BindParams(params, values) :: exists i :: 0 <= i < |params| && params[i].id == id
    decreases |params|
  {
    if params != [] {
      var n := |params| - 1;
      BindParamsAt(params[..n], values[..n]);
      forall i | 0 <= i < n
        ensures params[i].id in BindParams(params, values) && BindParams(params, values)[params[i].id] == values[i]
      {
        assert params[..n][i] == params[i] && values[..n][i] == values[i];
      }
      forall id | id in BindParams(params, values)
        ensures exists i :: 0 <= i < |params| && params[i].id == id
      {
        if id == params[n].id {
        } else {
          var i :| 0 <= i < n && params[..n][i].id == id;
          assert params[i].id == id;
        }
      }
    }
  }

  ghost function Opened(w: World, g: nat): Draft
    requires FunctionOk(w, g)
  {
    OpenFunction(w.pre[g], g, w.fns[g].params).value
  }

  lemma {:induction false} BodySite(w: World, g: nat)
    requires WorldOk(w) && g < |w.fns| && FunctionOk(w, g)
    ensures var params := w.fns[g].params;
            var s := Opened(w, g);
            && Site(w, g, s, w.pre[g + 1])
            && LowerList(w.fp, w.fns, w.fns[g].returnType, s, w.fns[g].body, 0) == Some(LoweredBody(w.pre[g + 1], true))
            && |s.code| == Table(w.p)[g].start
            && Base(w, g) + |params| <= Top(w, g) && |s.locals| == |params|
            && forall i | 0 <= i < |params| :: s.locals[i] == Local(params[i].id, Base(w, g) + i, params[i].ty)
  {
    OpenFunctionOk(w.pre[g], g, w.fns[g].params);
    var s := Opened(w, g);
    LowerListOk(w.fp, w.fns, w.fns[g].returnType, s, Base(w, g), w.fns[g].body, 0);
  }

  /** The machine is about to return v from the body of g, having changed nothing of its callers. */
  ghost predicate Returning(w: World, g: nat, v: Value, st: State, n: nat, st': State)
    requires FunctionOk(w, g)
  {
    && Reaches(w, st, n, st') && st'.frames == st.frames
    && st'.pc < |w.p.code| && w.p.code[st'.pc].op.Return?
    && ArgIn(st'.regs, w.p.code[st'.pc].a, v) && v.Type() == w.fns[g].returnType
    && Keeps(w, g, Base(w, g), Top(w, g), st.regs, st'.regs)
  }

  ghost predicate BodyEntry(w: World, g: nat, values: seq<Value>, st: State)
    requires FunctionOk(w, g)
  {
    && st.pc == Table(w.p)[g].start && |st.regs| == w.p.registerCount
    && |values| == |w.fns[g].params|
    && (forall i | 0 <= i < |values| ::
          ArgIn(st.regs, Base(w, g) + i, values[i]) && values[i].Type() == w.fns[g].params[i].ty)
    && |st.frames| + w.rank[g] < |w.fns|
  }

  /** The first locals are the parameters, and match what these are bound to. */
  lemma {:induction false} ParamsMatch(
      locals: seq<Local>, params: seq<Param>, values: seq<Value>, base: nat, regs: seq<Double>)
    requires |locals| == |params| == |values|
    requires forall i | 0 <= i < |params| :: locals[i] == Local(params[i].id, base + i, params[i].ty)
    requires forall i, j | 0 <= i < j < |locals| :: locals[i].id != locals[j].id
    requires forall i | 0 <= i < |locals| :: locals[i].id != 0
    requires forall i | 0 <= i < |values| :: ArgIn(regs, base + i, values[i]) && values[i].Type() == params[i].ty
    ensures Match(locals, BindParams(params, values), regs)
  {
    forall i, j | 0 <= i < j < |params|
      ensures params[i].id != params[j].id
    {
      assert locals[i].id != locals[j].id;
    }
    BindParamsAt(params, values);
    var env := BindParams(params, values);
    forall id | id in env
      ensures FindLocal(locals, id).Some?
    {
      var i :| 0 <= i < |params| && params[i].id == id;
      FindLocalCorrect(locals, id);
      assert locals[i].id == id;
    }
    forall i | 0 <= i < |locals| && locals[i].id in env
      ensures locals[i].reg < |regs| && env[locals[i].id].Type() == locals[i].ty
           && regs[locals[i].reg] == env[locals[i].id].Repr()
    {
      assert ArgIn(regs, base + i, values[i]);
      assert params[i].id in env && env[params[i].id] == values[i];
    }
  }

  lemma {:induction false} EntryMatches(w: World, g: nat, values: seq<Value>, st: State)
    requires WorldOk(w) && g < |w.fns| && FunctionOk(w, g) && BodyEntry(w, g, values, st)
    ensures At(w, g, Opened(w, g), BindParams(w.fns[g].params, values), st)
  {
    BodySite(w, g);
    ParamsMatch(Opened(w, g).locals, w.fns[g].params, values, Base(w, g), st.regs);
  }

  lemma {:induction false} SimBody(w: World, g: nat, d: nat, values: seq<Value>, st: State)
      returns (n: nat, st': State)
    requires WorldOk(w) && g < |w.fns| && FunctionOk(w, g) && BodyEntry(w, g, values, st)
    requires !ExecList(w.fp, w.source, d, BindParams(w.fns[g].params, values), w.fns[g].body).Stuck?
    ensures var out := ExecList(w.fp, w.source, d, BindParams(w.fns[g].params, values), w.fns[g].body);
            && (out.Done? ==> out.value.Returned? && Returning(w, g, out.value.value, st, n, st'))
            && (out.Fault? ==> FaultsAt(w, st, n, st'))
    decreases d, w.fns[g].body, 1
  {
    BodySite(w, g);
    EntryMatches(w, g, values, st);
    n, st' := SimList(w, g, d, Opened(w, g), w.fns[g].body, 0, BindParams(w.fns[g].params, values), st);
  }

  /** The code of a call: the arguments, the moves, the call itself. */
  lemma {:induction false} CallSites(w: World, f: nat, s: Draft, e: Expr, depth: nat)
    requires e.Call? && LowerExpr(w.fp, w.fns, s, e, depth).Some?
    requires Site(w, f, s, LowerExpr(w.fp, w.fns, s, e, depth).value.draft)
    requires ExprRanked(w.fns, w.rank, w.rank[f], e)
    ensures var g := FunctionIndex(w.fns, e.callee).value;
            && FunctionIndex(w.fns, e.callee).Some? && g < |w.fns| && w.rank[g] < w.rank[f]
            && FunctionOk(w, g) && w.fns[g].id == e.callee && |e.args| == |w.fns[g].params|
            && e.callType == w.fns[g].returnType
            && var xs := LowerArgs(w.fp, w.fns, s, e.args, w.fns[g].params, depth + 1).value;
            && Site(w, f, s, xs.draft)
            && (forall i | 0 <= i < |xs.regs| :: xs.regs[i] < |xs.draft.types|)
            && EmitMoves(xs.draft, w.fns[g].params, xs.regs).Some?
            && var moved := EmitMoves(xs.draft, w.fns[g].params, xs.regs).value;
            && Extends(s, moved) && Holds(w, moved, |xs.draft.code|)
            && |moved.types| == |xs.draft.types| + |e.args| < Top(w, f)
            && |moved.code| < |w.p.code|
            && w.p.code[|moved.code|]
            == Instruction(Opcode.Call, |moved.types|, g, |xs.draft.types|, w.fp.ofWhole(|e.args|))
  {
    var r := LowerExpr(w.fp, w.fns, s, e, depth).value;
    var g := FunctionIndex(w.fns, e.callee).value;
    IndexFromCorrect(w.fns, e.callee, 0);
    var params := w.fns[g].params;
    LowerMovedOk(w.fp, w.fns, s, Base(w, f), e.args, params, depth + 1);
    var xs := LowerArgs(w.fp, w.fns, s, e.args, params, depth + 1).value;
    var moved := EmitMoves(xs.draft, params, xs.regs).value;
    assert Extends(moved, r.draft);
    SubSite(w, f, s, xs.draft, r.draft);
    SubSite(w, f, xs.draft, moved, r.draft);
    assert r.draft.code[|moved.code|] == Instruction(Opcode.Call, |moved.types|, g, |xs.draft.types|, w.fp.ofWhole(|e.args|));
  }

  /** What a call instruction does when its checks pass. */
  lemma {:induction false} CallStep(fp: FloatModel, p: Bytecode.Program, maxDepth: nat, st: State, dst: nat, g: nat, c: nat, arity: nat)
    requires fp.WellBehaved() && arity <= 256
    requires st.pc < |p.code| && p.code[st.pc] == Instruction(Opcode.Call, dst, g, c, fp.ofWhole(arity))
    requires |st.frames| < maxDepth && CallFits(Table(p), |st.regs|, g, c, arity)
    ensures Step(fp, p, maxDepth, st)
         == Running(State(Table(p)[g].start,
                          WriteArgs(st.regs, Table(p)[g].base, st.regs[c..c + arity]),
                          st.frames + [Frame(st.pc + 1, dst)]))
  {
  }

  /** A call instruction enters the body of its callee with the arguments in the parameters. */
  lemma {:induction false} EnterCall(w: World, f: nat, g: nat, mid: State, dst: nat, c: nat, vs: seq<Value>)
      returns (st': State)
    requires WorldOk(w) && f < |w.fns| && g < |w.fns| && FunctionOk(w, f) && FunctionOk(w, g)
    requires w.rank[g] < w.rank[f] && |mid.frames| + w.rank[f] < |w.fns|
    requires |mid.regs| == w.p.registerCount && |vs| == |w.fns[g].params| && c + |vs| <= |mid.regs|
    requires mid.pc < |w.p.code|
    requires w.p.code[mid.pc] == Instruction(Opcode.Call, dst, g, c, w.fp.ofWhole(|vs|))
    requires forall i | 0 <= i < |vs| :: ArgIn(mid.regs, c + i, vs[i]) && vs[i].Type() == w.fns[g].params[i].ty
    ensures Step(w.fp, w.p, w.maxDepth, mid) == Running(st')
    ensures BodyEntry(w, g, vs, st') && st'.frames == mid.frames + [Frame(mid.pc + 1, dst)]
    ensures Keeps(w, g, Base(w, g), Top(w, g), mid.regs, st'.regs)
  {
    BodySite(w, g);
    CallStep(w.fp, w.p, w.maxDepth, mid, dst, g, c, |vs|);
    var args := mid.regs[c..c + |vs|];
    var regs := WriteArgs(mid.regs, Base(w, g), args);
    st' := State(Table(w.p)[g].start, regs, mid.frames + [Frame(mid.pc + 1, dst)]);
    EnteredBody(w, g, vs, c, mid.regs, st');
  }

  lemma {:induction false} EnteredBody(w: World, g: nat, vs: seq<Value>, c: nat, regs: seq<Double>, st: State)
    requires WorldOk(w) && g < |w.fns| && FunctionOk(w, g) && |st.frames| + w.rank[g] < |w.fns|
    requires |regs| == w.p.registerCount && |vs| == |w.fns[g].params| && c + |vs| <= |regs|
    requires Base(w, g) + |vs| <= Top(w, g)
    requires forall i | 0 <= i < |vs| :: ArgIn(regs, c + i, vs[i]) && vs[i].Type() == w.fns[g].params[i].ty
    requires st.pc == Table(w.p)[g].start && st.regs == WriteArgs(regs, Base(w, g), regs[c..c + |vs|])
    ensures BodyEntry(w, g, vs, st) && Keeps(w, g, Base(w, g), Top(w, g), regs, st.regs)
  {
    ArgsWritten(regs, Base(w, g), c, vs);
  }

  lemma {:induction false} ArgsWritten(regs: seq<Double>, base: nat, c: nat, vs: seq<Value>)
    requires c + |vs| <= |regs| && base + |vs| <= |regs|
    requires forall i | 0 <= i < |vs| :: ArgIn(regs, c + i, vs[i])
    ensures var regs' := WriteArgs(regs, base, regs[c..c + |vs|]);
            forall i | 0 <= i < |vs| :: ArgIn(regs', base + i, vs[i])
  {
    var args := regs[c..c + |vs|];
    forall i | 0 <= i < |vs|
      ensures ArgIn(WriteArgs(regs, base, args), base + i, vs[i])
    {
      assert ArgIn(regs, c + i, vs[i]);
      assert args[i] == regs[c + i];
    }
  }

  /** A return hands the value to the caller's destination register. */
  lemma {:induction false} LeaveCall(
      w: World, f: nat, g: nat, v: Value, st0: State, frames: seq<Frame>, dst: nat, st: State, n: nat, ret: State)
      returns (st': State)
    requires FunctionOk(w, f) && FunctionOk(w, g) && w.rank[g] < w.rank[f]
    requires Returning(w, g, v, st, n, ret)
    requires st.frames == frames + [Frame(st0.pc + 1, dst)]
    requires Keeps(w, g, Base(w, g), Top(w, g), st0.regs, st.regs)
    requires dst < w.p.registerCount
    ensures Step(w.fp, w.p, w.maxDepth, ret) == Running(st')
    ensures st'.pc == st0.pc + 1 && st'.frames == frames && ArgIn(st'.regs, dst, v)
    ensures Keeps(w, f, dst, dst + 1, st0.regs, st'.regs)
  {
    st' := State(st0.pc + 1, ret.regs[dst := v.Repr()], frames);
    assert ret.frames[..|ret.frames| - 1] == frames;
    forall r | 0 <= r < |st0.regs| && !(dst <= r < dst + 1) && w.regRank[r] >= w.rank[f]
      ensures st'.regs[r] == st0.regs[r]
    {
      assert !(Base(w, g) <= r < Top(w, g));
    }
  }

  /** From the call instruction to the one after it. */
  lemma {:induction false} SimInvoke(
      w: World, f: nat, g: nat, d: nat, vs: seq<Value>, mid: State, dst: nat, c: nat)
      returns (n: nat, st': State)
    requires WorldOk(w) && f < |w.fns| && g < |w.fns| && FunctionOk(w, f) && FunctionOk(w, g)
    requires w.rank[g] < w.rank[f] && |mid.frames| + w.rank[f] < |w.fns|
    requires |mid.regs| == w.p.registerCount && |vs| == |w.fns[g].params| && c + |vs| <= |mid.regs|
    requires mid.pc < |w.p.code| && dst < w.p.registerCount
    requires w.p.code[mid.pc] == Instruction(Opcode.Call, dst, g, c, w.fp.ofWhole(|vs|))
    requires forall i | 0 <= i < |vs| :: ArgIn(mid.regs, c + i, vs[i]) && vs[i].Type() == w.fns[g].params[i].ty
    requires !ExecList(w.fp, w.source, d, BindParams(w.fns[g].params, vs), w.fns[g].body).Stuck?
    ensures var out := ExecList(w.fp, w.source, d, BindParams(w.fns[g].params, vs), w.fns[g].body);
            && (out.Done? ==>
                  && out.value.Returned?
                  && Reaches(w, mid, n, st') && st'.pc == mid.pc + 1 && st'.frames == mid.frames
                  && ArgIn(st'.regs, dst, out.value.value) && out.value.value.Type() == w.fns[g].returnType
                  && Keeps(w, f, dst, dst + 1, mid.regs, st'.regs))
            && (out.Fault? ==> FaultsAt(w, mid, n, st'))
    decreases d, w.fns[g].body, 2
  {
    var entry := EnterCall(w, f, g, mid, dst, c, vs);
    ReachesSelf(w, mid);
    ReachesStep(w, mid, 0, mid, entry);
    var out := ExecList(w.fp, w.source, d, BindParams(w.fns[g].params, vs), w.fns[g].body);
    var m, ret := SimBody(w, g, d, vs, entry);
    ReachesTrans(w, mid, 1, entry, m, ret);
    n, st' := 1 + m, ret;
    if out.Done? {
      st' := LeaveCall(w, f, g, out.value.value, mid, mid.frames, dst, entry, m, ret);
      ReachesStep(w, mid, n, ret, st');
      n := n + 1;
    }
  }

  /** After the moves the arguments are in consecutive registers. */
  ghost predicate Moved(
      w: World, f: nat, s: Draft, xs: Draft, moved: Draft, params: seq<Param>, vs: seq<Value>, st: State, n: nat, mid: State)
    requires FunctionOk(w, f)
  {
    && Reaches(w, st, n, mid) && mid.pc == |moved.code| && mid.frames == st.frames
    && |mid.regs| == w.p.registerCount && |vs| == |params|
    && (forall i | 0 <= i < |vs| :: ArgIn(mid.regs, |xs.types| + i, vs[i]) && vs[i].Type() == params[i].ty)
    && Keeps(w, f, |s.types|, |moved.types|, st.regs, mid.regs)
  }

  lemma {:induction false} SimMovesIn(
      w: World, f: nat, s: Draft, xs: LoweredArgs, moved: Draft, params: seq<Param>, vs: seq<Value>,
      st: State, n: nat, st1: State)
      returns (n': nat, mid: State)
    requires FunctionOk(w, f) && |s.types| <= |xs.draft.types|
    requires ArgsDone(w, f, s, params, xs, vs, st, n, st1)
    requires EmitMoves(xs.draft, params, xs.regs) == Some(moved)
    requires forall i | 0 <= i < |xs.regs| :: xs.regs[i] < |xs.draft.types|
    requires Holds(w, moved, |xs.draft.code|) && |moved.types| == |xs.draft.types| + |params| < Top(w, f)
    ensures Moved(w, f, s, xs.draft, moved, params, vs, st, n', mid)
  {
    var m;
    m, mid := SimMoves(w, xs.draft, params, xs.regs, st1);
    n' := n + m;
    ReachesTrans(w, st, n, st1, m, mid);
    ArgsMoved(|xs.draft.types|, xs.regs, params, vs, st1.regs, mid.regs);
    KeepsTrans(w, f, |s.types|, |xs.draft.types|, |moved.types|, st.regs, st1.regs, mid.regs);
  }

  lemma {:induction false} ArgsMoved(c: nat, from: seq<nat>, params: seq<Param>, vs: seq<Value>, regs: seq<Double>, regs': seq<Double>)
    requires |from| == |params| == |vs| && c + |vs| <= |regs| == |regs'|
    requires forall i | 0 <= i < |vs| :: ArgIn(regs, from[i], vs[i]) && vs[i].Type() == params[i].ty
    requires forall i | 0 <= i < |from| :: from[i] < |regs| && regs'[c + i] == regs[from[i]]
    ensures forall i | 0 <= i < |vs| :: ArgIn(regs', c + i, vs[i]) && vs[i].Type() == params[i].ty
  {
    forall i | 0 <= i < |vs|
      ensures ArgIn(regs', c + i, vs[i])
    {
      assert ArgIn(regs, from[i], vs[i]);
      assert regs'[c + i] == regs[from[i]];
    }
  }

  /** A call whose arguments are in place. */
  lemma {:induction false} SimMovedCall(
      w: World, f: nat, g: nat, d: nat, s: Draft, xs: Draft, moved: Draft, r: Lowered, vs: seq<Value>,
      st: State, m: nat, mid: State)
      returns (n: nat, st': State)
    requires WorldOk(w) && f < |w.fns| && g < |w.fns| && FunctionOk(w, f) && FunctionOk(w, g)
    requires w.rank[g] < w.rank[f] && |st.frames| + w.rank[f] < |w.fns|
    requires Moved(w, f, s, xs, moved, w.fns[g].params, vs, st, m, mid)
    requires |s.types| <= |xs.types| && |moved.types| == |xs.types| + |vs| < Top(w, f)
    requires r.reg == |moved.types| && |r.draft.types| == |moved.types| + 1 && |r.draft.code| == |moved.code| + 1
    requires |moved.code| < |w.p.code|
    requires w.p.code[|moved.code|] == Instruction(Opcode.Call, |moved.types|, g, |xs.types|, w.fp.ofWhole(|vs|))
    requires !ExecList(w.fp, w.source, d, BindParams(w.fns[g].params, vs), w.fns[g].body).Stuck?
    ensures var out := ExecList(w.fp, w.source, d, BindParams(w.fns[g].params, vs), w.fns[g].body);
            && (out.Done? ==>
                  && out.value.Returned?
                  && ExprDone(w, f, s, w.fns[g].returnType, r, out.value.value, st, n, st'))
            && (out.Fault? ==> FaultsAt(w, st, n, st'))
    decreases d, w.fns[g].body, 3
  {
    var k;
    k, st' := SimInvoke(w, f, g, d, vs, mid, |moved.types|, |xs.types|);
    n := m + k;
    ReachesTrans(w, st, m, mid, k, st');
    if ExecList(w.fp, w.source, d, BindParams(w.fns[g].params, vs), w.fns[g].body).Done? {
      KeepsTrans(w, f, |s.types|, |moved.types|, |moved.types| + 1, st.regs, mid.regs, st'.regs);
    }
  }

  /** What compiling a call leaves: argument code, moves into consecutive registers, the instruction. */
  ghost predicate CallSite(w: World, f: nat, g: nat, s: Draft, xs: LoweredArgs, moved: Draft, r: Lowered) {
    && WorldOk(w) && f < |w.fns| && g < |w.fns| && FunctionOk(w, f) && w.rank[g] < w.rank[f]
    && |s.types| <= |xs.draft.types| && |xs.regs| == |w.fns[g].params|
    && EmitMoves(xs.draft, w.fns[g].params, xs.regs) == Some(moved)
    && (forall i | 0 <= i < |xs.regs| :: xs.regs[i] < |xs.draft.types|)
    && Holds(w, moved, |xs.draft.code|) && |moved.types| == |xs.draft.types| + |w.fns[g].params| < Top(w, f)
    && r.reg == |moved.types| && |r.draft.types| == |moved.types| + 1 && |r.draft.code| == |moved.code| + 1
    && |moved.code| < |w.p.code|
    && w.p.code[|moved.code|]
       == Instruction(Opcode.Call, |moved.types|, g, |xs.draft.types|, w.fp.ofWhole(|w.fns[g].params|))
  }

  lemma {:induction false} CallIsSite(w: World, f: nat, s: Draft, e: Expr, depth: nat)
      returns (g: nat, xs: LoweredArgs, moved: Draft)
    requires e.Call? && LowerExpr(w.fp, w.fns, s, e, depth).Some?
    requires Site(w, f, s, LowerExpr(w.fp, w.fns, s, e, depth).value.draft)
    requires ExprRanked(w.fns, w.rank, w.rank[f], e)
    ensures FunctionIndex(w.fns, e.callee) == Some(g) && g < |w.fns| && w.fns[g].id == e.callee
    ensures |e.args| == |w.fns[g].params| && e.callType == w.fns[g].returnType
    ensures LowerArgs(w.fp, w.fns, s, e.args, w.fns[g].params, depth + 1) == Some(xs) && Site(w, f, s, xs.draft)
    ensures CallSite(w, f, g, s, xs, moved, LowerExpr(w.fp, w.fns, s, e, depth).value)
    ensures ArgsRanked(w.fns, w.rank, w.rank[f], e.args)
  {
    CallSites(w, f, s, e, depth);
    g := FunctionIndex(w.fns, e.callee).value;
    xs := LowerArgs(w.fp, w.fns, s, e.args, w.fns[g].params, depth + 1).value;
    moved := EmitMoves(xs.draft, w.fns[g].params, xs.regs).value;
  }

  /** `res` is what a call evaluates to whose callee runs to `out`. */
  predicate Comes(out: Hir.Outcome<Flow>, res: Hir.Outcome<Value>) {
    && !out.Stuck? && (out.Fault? ==> res.Fault?)
    && (out.Done? && out.value.Returned? ==> res == Done(out.value.value))
  }

  /** What a call evaluates to, from its arguments and the body of its callee. */
  lemma {:induction false} CallMeans(w: World, d: nat, env: Env, e: Expr, g: nat)
    requires e.Call? && WorldOk(w) && g < |w.fns| && FunctionOk(w, g) && w.fns[g].id == e.callee
    requires !EvalExpr(w.fp, w.source, d, env, e).Stuck?
    ensures var vs := EvalArgs(w.fp, w.source, d, env, e.args);
            && !vs.Stuck? && (vs.Fault? ==> EvalExpr(w.fp, w.source, d, env, e).Fault?)
            && (vs.Done? ==>
                  && d > 0
                  && Comes(ExecList(w.fp, w.source, d - 1, BindParams(w.fns[g].params, vs.value), w.fns[g].body),
                           EvalExpr(w.fp, w.source, d, env, e)))
  {
  }

  /** A call whose arguments have been evaluated. */
  lemma {:induction false} SimCallBody(
      w: World, f: nat, g: nat, d: nat, s: Draft, xs: LoweredArgs, moved: Draft, r: Lowered, vs: seq<Value>,
      res: Hir.Outcome<Value>, st: State, m: nat, mid: State)
      returns (n: nat, st': State)
    requires CallSite(w, f, g, s, xs, moved, r) && |st.frames| + w.rank[f] < |w.fns|
    requires ArgsDone(w, f, s, w.fns[g].params, xs, vs, st, m, mid)
    requires Comes(ExecList(w.fp, w.source, d, BindParams(w.fns[g].params, vs), w.fns[g].body), res)
    ensures ExprSimulated(w, f, s, w.fns[g].returnType, r, res, st, n, st')
    decreases d, w.fns[g].body, 4
  {
    var k, at := SimMovesIn(w, f, s, xs, moved, w.fns[g].params, vs, st, m, mid);
    n, st' := SimMovedCall(w, f, g, d, s, xs.draft, moved, r, vs, st, k, at);
  }

  /** The arguments, then the callee. */
  lemma {:induction false} SimCallAt(
      w: World, f: nat, g: nat, d: nat, s: Draft, xs: LoweredArgs, moved: Draft, r: Lowered, args: seq<Expr>, depth: nat,
      env: Env, vs: Hir.Outcome<seq<Value>>, res: Hir.Outcome<Value>, st: State)
      returns (n: nat, st': State)
    requires CallSite(w, f, g, s, xs, moved, r) && At(w, f, s, env, st) && |args| == |w.fns[g].params|
    requires LowerArgs(w.fp, w.fns, s, args, w.fns[g].params, depth) == Some(xs) && Site(w, f, s, xs.draft)
    requires ArgsRanked(w.fns, w.rank, w.rank[f], args)
    requires vs == EvalArgs(w.fp, w.source, d, env, args) && !vs.Stuck? && (vs.Fault? ==> res.Fault?)
    requires vs.Done? ==>
               && d > 0
               && Comes(ExecList(w.fp, w.source, d - 1, BindParams(w.fns[g].params, vs.value), w.fns[g].body), res)
    ensures ExprSimulated(w, f, s, w.fns[g].returnType, r, res, st, n, st')
    decreases d, args, 1
  {
    n, st' := SimArgs(w, f, d, s, args, w.fns[g].params, depth, env, st);
    if vs.Done? {
      var last := d - 1;
      assert Comes(ExecList(w.fp, w.source, last, BindParams(w.fns[g].params, vs.value), w.fns[g].body), res);
      n, st' := SimCallBody(w, f, g, last, s, xs, moved, r, vs.value, res, st, n, st');
    }
  }

  lemma {:induction false} SimCallExpr(
      w: World, f: nat, d: nat, s: Draft, e: Expr, depth: nat, env: Env, st: State)
      returns (n: nat, st': State)
    requires e.Call? && LowerExpr(w.fp, w.fns, s, e, depth).Some?
    requires Site(w, f, s, LowerExpr(w.fp, w.fns, s, e, depth).value.draft) && At(w, f, s, env, st)
    requires ExprRanked(w.fns, w.rank, w.rank[f], e)
    requires !EvalExpr(w.fp, w.source, d, env, e).Stuck?
    ensures ExprSimulated(w, f, s, e.Type(), LowerExpr(w.fp, w.fns, s, e, depth).value,
                          EvalExpr(w.fp, w.source, d, env, e), st, n, st')
    decreases d, e, 0
  {
    var g, xs, moved := CallIsSite(w, f, s, e, depth);
    CallMeans(w, d, env, e, g);
    n, st' := SimCallAt(w, f, g, d, s, xs, moved, LowerExpr(w.fp, w.fns, s, e, depth).value, e.args, depth + 1, env,
                        EvalArgs(w.fp, w.source, d, env, e.args), EvalExpr(w.fp, w.source, d, env, e), st);
  }

  // ----- statements -----

  /** Where a statement leaves the machine: after its code, about to return, or stopped. */
  ghost predicate StmtSimulated(
      w: World, f: nat, r: LoweredBody, out: Hir.Outcome<Flow>, st: State, n: nat, st': State)
    requires FunctionOk(w, f)
  {
    match out
    case Done(Next(env)) =>
      && !r.ends && Reaches(w, st, n, st') && st'.frames == st.frames
      && At(w, f, r.draft, env, st')
      && Keeps(w, f, Base(w, f), Top(w, f), st.regs, st'.regs)
    case Done(Returned(v)) => Returning(w, f, v, st, n, st')
    case Fault => FaultsAt(w, st, n, st')
    case Stuck => true
  }

  /** A longer way to the same end. */
  lemma {:induction false} StmtAfter(
      w: World, f: nat, r: LoweredBody, out: Hir.Outcome<Flow>, st: State, m: nat, mid: State, n: nat, st': State)
    requires FunctionOk(w, f) && Reaches(w, st, m, mid) && mid.frames == st.frames
    requires Keeps(w, f, Base(w, f), Top(w, f), st.regs, mid.regs)
    requires StmtSimulated(w, f, r, out, mid, n, st')
    ensures StmtSimulated(w, f, r, out, st, m + n, st')
  {
    if !out.Stuck? { ReachesTrans(w, st, m, mid, n, st'); }
  }

  lemma {:induction false} KeepsWider(w: World, f: nat, lo: nat, hi: nat, regs: seq<Double>, regs': seq<Double>)
    requires FunctionOk(w, f) && Base(w, f) <= lo <= hi <= Top(w, f) && Keeps(w, f, lo, hi, regs, regs')
    ensures Keeps(w, f, Base(w, f), Top(w, f), regs, regs')
  {
  }

  lemma {:induction false} SimList(
      w: World, f: nat, d: nat, s: Draft, ss: seq<Stmt>, depth: nat, env: Env, st: State)
      returns (n: nat, st': State)
    requires f < |w.fns| && LowerList(w.fp, w.fns, w.fns[f].returnType, s, ss, depth).Some?
    requires Site(w, f, s, LowerList(w.fp, w.fns, w.fns[f].returnType, s, ss, depth).value.draft) && At(w, f, s, env, st)
    requires ListRanked(w.fns, w.rank, w.rank[f], ss)
    requires !ExecList(w.fp, w.source, d, env, ss).Stuck?
    ensures StmtSimulated(w, f, LowerList(w.fp, w.fns, w.fns[f].returnType, s, ss, depth).value,
                          ExecList(w.fp, w.source, d, env, ss), st, n, st')
    decreases d, ss, 0
  {
    if ss == [] {
      n, st' := 0, st;
      ReachesSelf(w, st);
    } else {
      ListSites(w, f, s, ss, depth);
      var ret := w.fns[f].returnType;
      var r := LowerStmt(w.fp, w.fns, ret, s, ss[0], depth).value;
      var flow := ExecStmt(w.fp, w.source, d, env, ss[0]);
      n, st' := SimStmt(w, f, d, s, ss[0], depth, env, st);
      if flow.Done? && flow.value.Next? && |ss| > 1 {
        var n1, st1 := n, st';
        n, st' := SimList(w, f, d, r.draft, ss[1..], depth, flow.value.env, st1);
        StmtAfter(w, f, LowerList(w.fp, w.fns, ret, r.draft, ss[1..], depth).value,
                  ExecList(w.fp, w.source, d, flow.value.env, ss[1..]), st, n1, st1, n, st');
        n := n1 + n;
      }
    }
  }

  lemma {:induction false} ListSites(w: World, f: nat, s: Draft, ss: seq<Stmt>, depth: nat)
    requires f < |w.fns| && ss != [] && LowerList(w.fp, w.fns, w.fns[f].returnType, s, ss, depth).Some?
    requires Site(w, f, s, LowerList(w.fp, w.fns, w.fns[f].returnType, s, ss, depth).value.draft)
    ensures var r := LowerStmt(w.fp, w.fns, w.fns[f].returnType, s, ss[0], depth).value;
            && Site(w, f, s, r.draft)
            && (|ss| > 1 ==>
                  Site(w, f, r.draft, LowerList(w.fp, w.fns, w.fns[f].returnType, s, ss, depth).value.draft))
  {
    var ret := w.fns[f].returnType;
    var r := LowerStmt(w.fp, w.fns, ret, s, ss[0], depth).value;
    LowerStmtOk(w.fp, w.fns, ret, s, Base(w, f), ss[0], depth);
    if |ss| > 1 {
      LowerListOk(w.fp, w.fns, ret, r.draft, Base(w, f), ss[1..], depth);
      SubSite(w, f, s, r.draft, LowerList(w.fp, w.fns, ret, s, ss, depth).value.draft);
    }
  }

  lemma {:induction false} SimStmt(
      w: World, f: nat, d: nat, s: Draft, t: Stmt, depth: nat, env: Env, st: State)
      returns (n: nat, st': State)
    requires f < |w.fns| && LowerStmt(w.fp, w.fns, w.fns[f].returnType, s, t, depth).Some?
    requires Site(w, f, s, LowerStmt(w.fp, w.fns, w.fns[f].returnType, s, t, depth).value.draft) && At(w, f, s, env, st)
    requires StmtRanked(w.fns, w.rank, w.rank[f], t)
    requires !ExecStmt(w.fp, w.source, d, env, t).Stuck?
    ensures StmtSimulated(w, f, LowerStmt(w.fp, w.fns, w.fns[f].returnType, s, t, depth).value,
                          ExecStmt(w.fp, w.source, d, env, t), st, n, st')
    decreases d, t, 3
  {
    match t
    case Declare(_, _, _) => n, st' := SimDeclare(w, f, d, s, t, depth, env, st);
    case Assign(_, _, _) => n, st' := SimAssign(w, f, d, s, t, depth, env, st);
    case Return(_, _) => n, st' := SimReturn(w, f, d, s, t, depth, env, st);
    case If(_, _, _) => n, st' := SimIf(w, f, d, s, t, depth, env, st);
  }

  /** Writing a variable: its register gets the value, all other variables stay. */
  lemma {:induction false} WriteLocal(s: Draft, base: nat, i: nat, env: Env, regs: seq<Double>, v: Value)
    requires LocalsOk(s, base) && i < |s.locals| && s.locals[i].reg < |regs|
    requires v.Type() == s.locals[i].ty
    requires Match(s.locals, env, regs)
    ensures Match(s.locals, env[s.locals[i].id := v], regs[s.locals[i].reg := v.Repr()])
  {
    var l := s.locals[i];
    forall id | id in env[l.id := v]
      ensures FindLocal(s.locals, id).Some?
    {
      FindLocalCorrect(s.locals, id);
    }
  }

  /** The closing move of a declaration or an assignment. */
  lemma {:induction false} SimStore(
      w: World, f: nat, s: Draft, x: Lowered, ty: Type, i: nat, env: Env, v: Value, st: State, n: nat, mid: State)
      returns (st': State)
    requires WorldOk(w) && FunctionOk(w, f) && At(w, f, s, env, st)
    requires LocalsOk(s, Base(w, f)) && ExprOk(w.fp, w.fns, s, Base(w, f), ty, x)
    requires |s.types| <= |x.draft.types| <= Top(w, f)
    requires i < |s.locals| && s.locals[i].ty == ty
    requires ExprDone(w, f, s, ty, x, v, st, n, mid)
    requires Emit(x.draft, Instruction(Move, s.locals[i].reg, x.reg, 0, ZERO)).Some?
    requires Holds(w, Emit(x.draft, Instruction(Move, s.locals[i].reg, x.reg, 0, ZERO)).value, |x.draft.code|)
    ensures StmtSimulated(w, f, LoweredBody(Emit(x.draft, Instruction(Move, s.locals[i].reg, x.reg, 0, ZERO)).value, false),
                          Done(Next(env[s.locals[i].id := v])), st, n + 1, st')
  {
    var l := s.locals[i];
    var t := Emit(x.draft, Instruction(Move, l.reg, x.reg, 0, ZERO)).value;
    assert w.p.code[mid.pc] == t.code[|x.draft.code|] == Instruction(Move, l.reg, x.reg, 0, ZERO);
    st' := Put(mid, l.reg, v.Repr()).state;
    ReachesStep(w, st, n, mid, st');
    MatchKept(w, f, s, env, |s.types|, |x.draft.types|, st.regs, mid.regs);
    WriteLocal(s, Base(w, f), i, env, mid.regs, v);
    KeepsWider(w, f, |s.types|, |x.draft.types|, st.regs, mid.regs);
  }

  lemma {:induction false} SimDeclare(
      w: World, f: nat, d: nat, s: Draft, t: Stmt, depth: nat, env: Env, st: State)
      returns (n: nat, st': State)
    requires t.Declare? && f < |w.fns| && LowerStmt(w.fp, w.fns, w.fns[f].returnType, s, t, depth).Some?
    requires Site(w, f, s, LowerStmt(w.fp, w.fns, w.fns[f].returnType, s, t, depth).value.draft) && At(w, f, s, env, st)
    requires StmtRanked(w.fns, w.rank, w.rank[f], t)
    requires !ExecStmt(w.fp, w.source, d, env, t).Stuck?
    ensures StmtSimulated(w, f, LowerStmt(w.fp, w.fns, w.fns[f].returnType, s, t, depth).value,
                          ExecStmt(w.fp, w.source, d, env, t), st, n, st')
    decreases d, t, 0
  {
    var Declare(ty, id, init) := t;
    var r := LowerStmt(w.fp, w.fns, w.fns[f].returnType, s, t, depth).value;
    var s2 := Bind(Allocate(s, ty).value, id, |s.types|, ty).value;
    BindOk(s, Base(w, f), id, ty);
    MatchWider(s, s2, Base(w, f), env, st.regs);
    var x := LowerExpr(w.fp, w.fns, s2, init, 0).value;
    LowerExprOk(w.fp, w.fns, s2, Base(w, f), init, 0);
    LocalsOkExtends(s2, x.draft, Base(w, f));
    assert Site(w, f, s2, r.draft);
    SubSite(w, f, s2, x.draft, r.draft);
    n, st' := SimExpr(w, f, d, s2, init, 0, env, st);
    var v := EvalExpr(w.fp, w.source, d, env, init);
    if v.Done? {
      assert s2.locals[|s.locals|] == Local(id, |s.types|, ty);
      st' := SimStore(w, f, s2, x, ty, |s.locals|, env, v.value, st, n, st');
      n := n + 1;
    }
  }

  /** The parts of an assignment: the variable, and the code of the value. */
  lemma {:induction false} AssignSite(w: World, f: nat, s: Draft, t: Stmt, depth: nat) returns (i: nat, x: Lowered)
    requires t.Assign? && f < |w.fns| && LowerStmt(w.fp, w.fns, w.fns[f].returnType, s, t, depth).Some?
    requires Site(w, f, s, LowerStmt(w.fp, w.fns, w.fns[f].returnType, s, t, depth).value.draft)
    ensures i < |s.locals| && s.locals[i].id == t.id && s.locals[i].ty == t.assignType && t.value.Type() == t.assignType
    ensures LowerExpr(w.fp, w.fns, s, t.value, 0) == Some(x) && Site(w, f, s, x.draft)
    ensures ExprOk(w.fp, w.fns, s, Base(w, f), t.assignType, x)
    ensures var last := Emit(x.draft, Instruction(Move, s.locals[i].reg, x.reg, 0, ZERO));
            && last.Some? && LowerStmt(w.fp, w.fns, w.fns[f].returnType, s, t, depth) == Some(LoweredBody(last.value, false))
            && Holds(w, last.value, |x.draft.code|)
  {
    FindLocalCorrect(s.locals, t.id);
    i :| 0 <= i < |s.locals| && s.locals[i] == FindLocal(s.locals, t.id).value && s.locals[i].id == t.id;
    x := LowerExpr(w.fp, w.fns, s, t.value, 0).value;
    LowerExprOk(w.fp, w.fns, s, Base(w, f), t.value, 0);
    LocalsOkExtends(s, x.draft, Base(w, f));
    SubSite(w, f, s, x.draft, LowerStmt(w.fp, w.fns, w.fns[f].returnType, s, t, depth).value.draft);
  }

  lemma {:induction false} SimAssign(
      w: World, f: nat, d: nat, s: Draft, t: Stmt, depth: nat, env: Env, st: State)
      returns (n: nat, st': State)
    requires t.Assign? && f < |w.fns| && LowerStmt(w.fp, w.fns, w.fns[f].returnType, s, t, depth).Some?
    requires Site(w, f, s, LowerStmt(w.fp, w.fns, w.fns[f].returnType, s, t, depth).value.draft) && At(w, f, s, env, st)
    requires StmtRanked(w.fns, w.rank, w.rank[f], t)
    requires !ExecStmt(w.fp, w.source, d, env, t).Stuck?
    ensures StmtSimulated(w, f, LowerStmt(w.fp, w.fns, w.fns[f].returnType, s, t, depth).value,
                          ExecStmt(w.fp, w.source, d, env, t), st, n, st')
    decreases d, t, 0
  {
    var i, x := AssignSite(w, f, s, t, depth);
    n, st' := SimExpr(w, f, d, s, t.value, 0, env, st);
    var v := EvalExpr(w.fp, w.source, d, env, t.value);
    if v.Done? {
      st' := SimStore(w, f, s, x, t.assignType, i, env, v.value, st, n, st');
      n := n + 1;
    }
  }

  lemma {:induction false} SimReturn(
      w: World, f: nat, d: nat, s: Draft, t: Stmt, depth: nat, env: Env, st: State)
      returns (n: nat, st': State)
    requires t.Return? && f < |w.fns| && LowerStmt(w.fp, w.fns, w.fns[f].returnType, s, t, depth).Some?
    requires Site(w, f, s, LowerStmt(w.fp, w.fns, w.fns[f].returnType, s, t, depth).value.draft) && At(w, f, s, env, st)
    requires StmtRanked(w.fns, w.rank, w.rank[f], t)
    requires !ExecStmt(w.fp, w.source, d, env, t).Stuck?
    ensures StmtSimulated(w, f, LowerStmt(w.fp, w.fns, w.fns[f].returnType, s, t, depth).value,
                          ExecStmt(w.fp, w.source, d, env, t), st, n, st')
    decreases d, t, 0
  {
    var Return(ty, result) := t;
    var r := LowerStmt(w.fp, w.fns, w.fns[f].returnType, s, t, depth).value;
    var x := LowerExpr(w.fp, w.fns, s, result, 0).value;
    LowerExprOk(w.fp, w.fns, s, Base(w, f), result, 0);
    LocalsOkExtends(s, x.draft, Base(w, f));
    SubSite(w, f, s, x.draft, r.draft);
    n, st' := SimExpr(w, f, d, s, result, 0, env, st);
    if EvalExpr(w.fp, w.source, d, env, result).Done? {
      assert w.p.code[st'.pc] == r.draft.code[|x.draft.code|] == Instruction(Opcode.Return, x.reg, 0, 0, ZERO);
      KeepsWider(w, f, |s.types|, |x.draft.types|, st.regs, st'.regs);
    }
  }

  /** The parts of a conditional in the program: the condition, its branch, the two bodies. */
  lemma {:induction false} IfSites(w: World, f: nat, s: Draft, t: Stmt, depth: nat)
    requires t.If? && f < |w.fns| && LowerStmt(w.fp, w.fns, w.fns[f].returnType, s, t, depth).Some?
    requires Site(w, f, s, LowerStmt(w.fp, w.fns, w.fns[f].returnType, s, t, depth).value.draft)
    ensures LowerExpr(w.fp, w.fns, s, t.cond, 0).Some?
    ensures IfThen(w.fp, w.fns, w.fns[f].returnType, s, t, depth).Some?
    ensures var x := LowerExpr(w.fp, w.fns, s, t.cond, 0).value;
            var head := IfHead(w.fp, w.fns, s, t);
            var a := IfThen(w.fp, w.fns, w.fns[f].returnType, s, t, depth).value;
            var m := IfMiddle(w.fp, w.fns, w.fns[f].returnType, s, t, depth);
            && Site(w, f, s, x.draft) && Site(w, f, head, a.draft)
            && head.locals == s.locals && s.locals <= a.draft.locals
            && Base(w, f) <= |s.types| <= |x.draft.types| <= Top(w, f)
            && |x.draft.code| < |w.p.code|
            && w.p.code[|x.draft.code|] == Instruction(JumpIfFalse, x.reg, |m.code|, 0, ZERO)
  {
    var ret := w.fns[f].returnType;
    IfParts(w.fp, w.fns, ret, s, Base(w, f), t, depth);
    var x := LowerExpr(w.fp, w.fns, s, t.cond, 0).value;
    var head := IfHead(w.fp, w.fns, s, t);
    var a := IfThen(w.fp, w.fns, ret, s, t, depth).value;
    var m := IfMiddle(w.fp, w.fns, ret, s, t, depth);
    var r := LowerStmt(w.fp, w.fns, ret, s, t, depth).value;
    assert |m.code| <= |r.draft.code| && forall pc | 0 <= pc < |a.draft.code| :: r.draft.code[pc] == m.code[pc];
    forall pc | |s.code| <= pc < |x.draft.code|
      ensures w.p.code[pc] == x.draft.code[pc]
    {
      assert head.code[pc] == x.draft.code[pc];
      assert a.draft.code[pc] == head.code[pc];
    }
    assert a.draft.code[|x.draft.code|] == head.code[|x.draft.code|];
  }

  lemma {:induction false} ElseSite(w: World, f: nat, s: Draft, t: Stmt, depth: nat)
    requires t.If? && f < |w.fns| && LowerStmt(w.fp, w.fns, w.fns[f].returnType, s, t, depth).Some?
    requires Site(w, f, s, LowerStmt(w.fp, w.fns, w.fns[f].returnType, s, t, depth).value.draft)
    requires t.elseBody != []
    ensures LowerExpr(w.fp, w.fns, s, t.cond, 0).Some?
    ensures IfThen(w.fp, w.fns, w.fns[f].returnType, s, t, depth).Some?
    ensures var a := IfThen(w.fp, w.fns, w.fns[f].returnType, s, t, depth).value;
            var m := IfMiddle(w.fp, w.fns, w.fns[f].returnType, s, t, depth);
            && LowerList(w.fp, w.fns, w.fns[f].returnType, m, t.elseBody, depth + 1).Some?
            && var e := LowerList(w.fp, w.fns, w.fns[f].returnType, m, t.elseBody, depth + 1).value;
            && Site(w, f, m, e.draft)
            && (!a.ends ==>
                  && |a.draft.code| < |w.p.code|
                  && w.p.code[|a.draft.code|] == Instruction(Jump, |e.draft.code|, 0, 0, ZERO))
  {
    var ret := w.fns[f].returnType;
    IfParts(w.fp, w.fns, ret, s, Base(w, f), t, depth);
  }

  /** The end of the then-branch: over the else-branch, if there is one. */
  lemma {:induction false} ThenEnds(w: World, f: nat, s: Draft, t: Stmt, depth: nat, out: Hir.Outcome<Flow>, st: State, m: nat, mid: State)
      returns (n: nat, st': State)
    requires t.If? && f < |w.fns| && LowerStmt(w.fp, w.fns, w.fns[f].returnType, s, t, depth).Some?
    requires Site(w, f, s, LowerStmt(w.fp, w.fns, w.fns[f].returnType, s, t, depth).value.draft)
    requires LowerExpr(w.fp, w.fns, s, t.cond, 0).Some? && IfThen(w.fp, w.fns, w.fns[f].returnType, s, t, depth).Some?
    requires StmtSimulated(w, f, IfThen(w.fp, w.fns, w.fns[f].returnType, s, t, depth).value, out, st, m, mid)
    ensures StmtSimulated(w, f, LowerStmt(w.fp, w.fns, w.fns[f].returnType, s, t, depth).value, out, st, n, st')
  {
    var ret := w.fns[f].returnType;
    var a := IfThen(w.fp, w.fns, ret, s, t, depth).value;
    var r := LowerStmt(w.fp, w.fns, ret, s, t, depth).value;
    n, st' := m, mid;
    IfParts(w.fp, w.fns, ret, s, Base(w, f), t, depth);
    if out.Done? && out.value.Next? && t.elseBody != [] {
      ElseSite(w, f, s, t, depth);
      st' := mid.(pc := |r.draft.code|);
      ReachesStep(w, st, m, mid, st');
      n := m + 1;
      MatchWider(a.draft, r.draft, Base(w, f), out.value.env, st'.regs);
    }
  }

  /** The condition has been evaluated, and is true. */
  lemma {:induction false} SimIfTrue(
      w: World, f: nat, d: nat, s: Draft, t: Stmt, depth: nat, env: Env, st: State, m: nat, mid: State)
      returns (n: nat, st': State)
    requires t.If? && f < |w.fns| && LowerStmt(w.fp, w.fns, w.fns[f].returnType, s, t, depth).Some?
    requires Site(w, f, s, LowerStmt(w.fp, w.fns, w.fns[f].returnType, s, t, depth).value.draft) && At(w, f, s, env, st)
    requires StmtRanked(w.fns, w.rank, w.rank[f], t) && LowerExpr(w.fp, w.fns, s, t.cond, 0).Some?
    requires ExprDone(w, f, s, Boolean, LowerExpr(w.fp, w.fns, s, t.cond, 0).value, Bool(true), st, m, mid)
    requires !ExecList(w.fp, w.source, d, env, t.thenBody).Stuck?
    ensures StmtSimulated(w, f, LowerStmt(w.fp, w.fns, w.fns[f].returnType, s, t, depth).value,
                          ExecList(w.fp, w.source, d, env, t.thenBody), st, n, st')
    decreases d, t, 1
  {
    IfSites(w, f, s, t, depth);
    var x := LowerExpr(w.fp, w.fns, s, t.cond, 0).value;
    MatchKept(w, f, s, env, |s.types|, |x.draft.types|, st.regs, mid.regs);
    KeepsWider(w, f, |s.types|, |x.draft.types|, st.regs, mid.regs);
    var next := mid.(pc := mid.pc + 1);
    ReachesStep(w, st, m, mid, next);
    n, st' := SimList(w, f, d, IfHead(w.fp, w.fns, s, t), t.thenBody, depth + 1, env, next);
    var out := ExecList(w.fp, w.source, d, env, t.thenBody);
    StmtAfter(w, f, IfThen(w.fp, w.fns, w.fns[f].returnType, s, t, depth).value, out, st, m + 1, next, n, st');
    n, st' := ThenEnds(w, f, s, t, depth, out, st, m + 1 + n, st');
  }

  /** The condition has been evaluated, and is false. */
  lemma {:induction false} SimIfFalse(
      w: World, f: nat, d: nat, s: Draft, t: Stmt, depth: nat, env: Env, st: State, m: nat, mid: State)
      returns (n: nat, st': State)
    requires t.If? && f < |w.fns| && LowerStmt(w.fp, w.fns, w.fns[f].returnType, s, t, depth).Some?
    requires Site(w, f, s, LowerStmt(w.fp, w.fns, w.fns[f].returnType, s, t, depth).value.draft) && At(w, f, s, env, st)
    requires StmtRanked(w.fns, w.rank, w.rank[f], t) && LowerExpr(w.fp, w.fns, s, t.cond, 0).Some?
    requires ExprDone(w, f, s, Boolean, LowerExpr(w.fp, w.fns, s, t.cond, 0).value, Bool(false), st, m, mid)
    requires !ExecList(w.fp, w.source, d, env, t.elseBody).Stuck?
    ensures StmtSimulated(w, f, LowerStmt(w.fp, w.fns, w.fns[f].returnType, s, t, depth).value,
                          ExecList(w.fp, w.source, d, env, t.elseBody), st, n, st')
    decreases d, t, 1
  {
    IfSites(w, f, s, t, depth);
    var x := LowerExpr(w.fp, w.fns, s, t.cond, 0).value;
    MatchKept(w, f, s, env, |s.types|, |x.draft.types|, st.regs, mid.regs);
    KeepsWider(w, f, |s.types|, |x.draft.types|, st.regs, mid.regs);
    var next := mid.(pc := |IfMiddle(w.fp, w.fns, w.fns[f].returnType, s, t, depth).code|);
    ReachesStep(w, st, m, mid, next);
    n, st' := SimElse(w, f, d, s, t, depth, env, next);
    StmtAfter(w, f, LowerStmt(w.fp, w.fns, w.fns[f].returnType, s, t, depth).value,
              ExecList(w.fp, w.source, d, env, t.elseBody), st, m + 1, next, n, st');
    n := m + 1 + n;
  }

  lemma {:induction false} SimIf(
      w: World, f: nat, d: nat, s: Draft, t: Stmt, depth: nat, env: Env, st: State)
      returns (n: nat, st': State)
    requires t.If? && f < |w.fns| && LowerStmt(w.fp, w.fns, w.fns[f].returnType, s, t, depth).Some?
    requires Site(w, f, s, LowerStmt(w.fp, w.fns, w.fns[f].returnType, s, t, depth).value.draft) && At(w, f, s, env, st)
    requires StmtRanked(w.fns, w.rank, w.rank[f], t)
    requires !ExecStmt(w.fp, w.source, d, env, t).Stuck?
    ensures StmtSimulated(w, f, LowerStmt(w.fp, w.fns, w.fns[f].returnType, s, t, depth).value,
                          ExecStmt(w.fp, w.source, d, env, t), st, n, st')
    decreases d, t, 2
  {
    IfSites(w, f, s, t, depth);
    var c := EvalExpr(w.fp, w.source, d, env, t.cond);
    n, st' := SimExpr(w, f, d, s, t.cond, 0, env, st);
    if c.Done? {
      if c.value.flag {
        n, st' := SimIfTrue(w, f, d, s, t, depth, env, st, n, st');
      } else {
        n, st' := SimIfFalse(w, f, d, s, t, depth, env, st, n, st');
      }
    }
  }

  lemma {:induction false} SimElse(
      w: World, f: nat, d: nat, s: Draft, t: Stmt, depth: nat, env: Env, st: State)
      returns (n: nat, st': State)
    requires t.If? && f < |w.fns| && LowerStmt(w.fp, w.fns, w.fns[f].returnType, s, t, depth).Some?
    requires Site(w, f, s, LowerStmt(w.fp, w.fns, w.fns[f].returnType, s, t, depth).value.draft)
    requires LowerExpr(w.fp, w.fns, s, t.cond, 0).Some? && IfThen(w.fp, w.fns, w.fns[f].returnType, s, t, depth).Some?
    requires st.pc == |IfMiddle(w.fp, w.fns, w.fns[f].returnType, s, t, depth).code|
    requires |st.regs| == w.p.registerCount && Match(s.locals, env, st.regs) && |st.frames| + w.rank[f] < |w.fns|
    requires StmtRanked(w.fns, w.rank, w.rank[f], t)
    requires !ExecList(w.fp, w.source, d, env, t.elseBody).Stuck?
    ensures StmtSimulated(w, f, LowerStmt(w.fp, w.fns, w.fns[f].returnType, s, t, depth).value,
                          ExecList(w.fp, w.source, d, env, t.elseBody), st, n, st')
    decreases d, t.elseBody, 1
  {
    var ret := w.fns[f].returnType;
    IfParts(w.fp, w.fns, ret, s, Base(w, f), t, depth);
    var m := IfMiddle(w.fp, w.fns, ret, s, t, depth);
    MatchWider(s, m, Base(w, f), env, st.regs);
    if t.elseBody == [] {
      n, st' := 0, st;
      ReachesSelf(w, st);
    } else {
      ElseSite(w, f, s, t, depth);
      n, st' := SimList(w, f, d, m, t.elseBody, depth + 1, env, st);
    }
  }
}
