/** One register file for all functions is safe because no register is used by two of them: a call changes
    nothing of the functions that wait for it, except the register its value goes to. */
module Ownership {
  import opened Wrappers
  import opened Floats
  import opened Hir
  import opened Bytecode
  import opened Lowering
  import opened LoweringFacts
  import opened CallGraph
  import opened Compiler
  import opened CompilerCorrect
  import opened CompilerVerified
  import opened Verifier
  import opened Safety

  // ----- programs whose registers have owners -----

  predicate Writes(op: Opcode) { IsPlain(op) || op.Call? }

  ghost predicate WritesOwn(p: Bytecode.Program, owner: seq<nat>, pc: nat) {
    pc < |p.code| && |Table(p)| > 0 && Writes(p.code[pc].op) ==>
      p.code[pc].a < |owner| && owner[p.code[pc].a] == OwnerOf(Table(p), pc)
  }

  ghost predicate ParametersOwn(p: Bytecode.Program, owner: seq<nat>, f: nat) {
    f < |Table(p)| ==>
      forall r | Table(p)[f].base <= r < Table(p)[f].base + Table(p)[f].arity :: r < |owner| && owner[r] == f
  }

  /** Every function writes registers of its own only, and its parameters are its own. */
  ghost predicate Disjoint(p: Bytecode.Program, owner: seq<nat>) {
    && |owner| == p.registerCount
    && (forall pc: nat :: WritesOwn(p, owner, pc))
    && (forall f: nat :: ParametersOwn(p, owner, f))
  }

  // ----- calls in such programs -----

  /** A function on the stack ranks lower than the one that called it. */
  lemma {:induction false} CalleeRanksLower(
      fp: FloatModel, p: Bytecode.Program, st: State, stack: seq<nat>, rank: seq<nat>, j: nat)
    requires Accepted(fp, p) && Safe(fp, p, st, stack) && IsRank(CallEdges(p, Table(p)), rank) && 0 < j < |stack|
    ensures stack[j - 1] < |rank| && stack[j] < |rank| && rank[stack[j]] < rank[stack[j - 1]]
  {
    DepthBound(fp, p, st, stack, rank, j - 1);
    DepthBound(fp, p, st, stack, rank, j);
    assert FrameAt(p, stack, st.frames, j);
    CallRank(fp, p, stack[j - 1], st.frames[j - 1].returnPc - 1, rank);
  }

  /** Functions further up the stack rank lower. */
  lemma {:induction false} RanksFall(fp: FloatModel, p: Bytecode.Program, st: State, stack: seq<nat>, rank: seq<nat>, i: nat, j: nat)
    requires Accepted(fp, p) && Safe(fp, p, st, stack) && IsRank(CallEdges(p, Table(p)), rank) && i < j < |stack|
    ensures stack[i] < |rank| && stack[j] < |rank| && rank[stack[j]] < rank[stack[i]]
    decreases j
  {
    CalleeRanksLower(fp, p, st, stack, rank, j);
    if i + 1 < j { RanksFall(fp, p, st, stack, rank, i, j - 1); }
  }

  /** No function is active twice. */
  lemma {:induction false} ActiveOnce(fp: FloatModel, p: Bytecode.Program, st: State, stack: seq<nat>, i: nat, j: nat)
    requires Accepted(fp, p) && Safe(fp, p, st, stack) && i < j < |stack|
    ensures stack[i] != stack[j]
  {
    var rank :| IsRank(CallEdges(p, Table(p)), rank);
    RanksFall(fp, p, st, stack, rank, i, j);
  }

  /** Registers of the functions in `waiting` are the same, except for `dst`. */
  ghost predicate Kept(owner: seq<nat>, waiting: seq<nat>, dst: nat, regs: seq<Double>, regs': seq<Double>) {
    && |regs'| == |regs| == |owner|
    && forall r | 0 <= r < |regs| && owner[r] in waiting && r != dst :: regs'[r] == regs[r]
  }

  /** Somewhere inside a call made when `waiting` were active and `frames` saved: both are still there. */
  ghost predicate Deeper(waiting: seq<nat>, frames: seq<Frame>, st: State, stack: seq<nat>) {
    && |frames| == |waiting| && |st.frames| >= |frames| && st.frames[..|frames|] == frames
    && |stack| == |st.frames| + 1 && stack[..|waiting|] == waiting
  }

  /** A step inside the call. */
  lemma {:induction false} StepKeeps(
      fp: FloatModel, p: Bytecode.Program, owner: seq<nat>, maxDepth: nat, waiting: seq<nat>, frames: seq<Frame>,
      st: State, stack: seq<nat>)
    requires Good(fp, p) && Disjoint(p, owner) && Safe(fp, p, st, stack) && Deeper(waiting, frames, st, stack)
    requires frames != [] && Step(fp, p, maxDepth, st).Running?
    ensures st.pc < |p.code|
    ensures var next := Step(fp, p, maxDepth, st).state;
            && Kept(owner, waiting, frames[|frames| - 1].destination, st.regs, next.regs)
            && if |st.frames| == |frames| && p.code[st.pc].op.Return?
               then next.frames == frames[..|frames| - 1] && next.pc == frames[|frames| - 1].returnPc
               else Deeper(waiting, frames, next, StackAfter(p, st, stack))
  {
    StepKeepsSafe(fp, p, maxDepth, st, stack);
    var top := |stack| - 1;
    InsideFlow(fp, p, stack[top], st.pc);
    forall i | 0 <= i < |waiting|
      ensures waiting[i] != stack[top]
    {
      ActiveOnce(fp, p, st, stack, i, top);
    }
    var op := p.code[st.pc].op;
    if op.Return? { ReturnKeeps(fp, p, owner, maxDepth, waiting, frames, st, stack); }
    else if op.Call? { CallKeeps(fp, p, owner, maxDepth, waiting, frames, st, stack); }
    else { StayKeeps(fp, p, owner, maxDepth, waiting, frames, st, stack); }
  }

  /** A step within the function on top of the stack. */
  lemma {:induction false} StayKeeps(
      fp: FloatModel, p: Bytecode.Program, owner: seq<nat>, maxDepth: nat, waiting: seq<nat>, frames: seq<Frame>,
      st: State, stack: seq<nat>)
    requires Disjoint(p, owner) && Deeper(waiting, frames, st, stack) && |st.regs| == |owner|
    requires frames != [] && Step(fp, p, maxDepth, st).Running?
    requires st.pc < |p.code| && !p.code[st.pc].op.Return? && !p.code[st.pc].op.Call?
    requires |Table(p)| > 0 && OwnerOf(Table(p), st.pc) !in waiting
    ensures var next := Step(fp, p, maxDepth, st).state;
            && Kept(owner, waiting, frames[|frames| - 1].destination, st.regs, next.regs)
            && Deeper(waiting, frames, next, stack)
  {
    assert WritesOwn(p, owner, st.pc);
  }

  /** What a RETURN to a waiting function does. */
  lemma {:induction false} ReturnEffect(fp: FloatModel, p: Bytecode.Program, maxDepth: nat, st: State, next: State)
    requires st.pc < |p.code| && p.code[st.pc].op.Return? && Step(fp, p, maxDepth, st) == Running(next) && st.frames != []
    ensures var frame := st.frames[|st.frames| - 1];
            && next.frames == st.frames[..|st.frames| - 1] && next.pc == frame.returnPc
            && OnlyWithin(st.regs, next.regs, frame.destination, 1)
  {
  }

  /** The destination of the last frame is a register of the function it returns to. */
  lemma {:induction false} DestinationOwned(p: Bytecode.Program, owner: seq<nat>, frames: seq<Frame>, stack: seq<nat>)
    requires Disjoint(p, owner) && FramesOk(p, stack, frames) && frames != [] && |Table(p)| > 0
    ensures var dst := frames[|frames| - 1].destination;
            dst < |owner| && owner[dst] == stack[|frames| - 1]
  {
    assert FrameAt(p, stack, frames, |frames|);
    assert WritesOwn(p, owner, frames[|frames| - 1].returnPc - 1);
  }

  /** Only registers of one function are written, and that function does not wait. */
  lemma {:induction false} OthersKept(
      owner: seq<nat>, waiting: seq<nat>, dst: nat, g: nat, regs: seq<Double>, regs': seq<Double>, base: nat, count: nat)
    requires OnlyWithin(regs, regs', base, count) && |regs| == |owner| && g !in waiting
    requires forall r | base <= r < base + count :: r < |owner| && owner[r] == g
    ensures Kept(owner, waiting, dst, regs, regs')
  {
  }

  ghost predicate OnlyWithin(regs: seq<Double>, regs': seq<Double>, base: nat, count: nat) {
    |regs'| == |regs| && forall r | 0 <= r < |regs| && !(base <= r < base + count) :: regs'[r] == regs[r]
  }

  /** The function a frame returns to does not wait further down. */
  lemma {:induction false} CallerWaitsOnce(fp: FloatModel, p: Bytecode.Program, st: State, stack: seq<nat>, j: nat)
    requires Accepted(fp, p) && Safe(fp, p, st, stack) && j < |stack|
    ensures stack[j] !in stack[..j]
  {
    forall i | 0 <= i < j
      ensures stack[i] != stack[j]
    {
      ActiveOnce(fp, p, st, stack, i, j);
    }
  }

  lemma {:induction false} ReturnKeeps(
      fp: FloatModel, p: Bytecode.Program, owner: seq<nat>, maxDepth: nat, waiting: seq<nat>, frames: seq<Frame>,
      st: State, stack: seq<nat>)
    requires Good(fp, p) && Disjoint(p, owner) && Safe(fp, p, st, stack) && Deeper(waiting, frames, st, stack)
    requires frames != [] && Step(fp, p, maxDepth, st).Running?
    requires st.pc < |p.code| && p.code[st.pc].op.Return?
    ensures var next := Step(fp, p, maxDepth, st).state;
            && Kept(owner, waiting, frames[|frames| - 1].destination, st.regs, next.regs)
            && if |st.frames| == |frames| then next.frames == frames[..|frames| - 1] && next.pc == frames[|frames| - 1].returnPc
               else Deeper(waiting, frames, next, stack[..|stack| - 1])
  {
    var n, next := |st.frames|, Step(fp, p, maxDepth, st).state;
    ReturnEffect(fp, p, maxDepth, st, next);
    if n > |frames| {
      ReturnDeeper(waiting, frames, st, next, stack);
      DestinationOwned(p, owner, st.frames, stack);
      CallerWaitsOnce(fp, p, st, stack, n - 1);
      StillLacks(waiting, stack, n - 1);
      OthersKept(owner, waiting, frames[|frames| - 1].destination, stack[n - 1], st.regs, next.regs,
                 st.frames[n - 1].destination, 1);
    }
  }

  lemma {:induction false} StillLacks(waiting: seq<nat>, stack: seq<nat>, j: nat)
    requires |waiting| <= j < |stack| && waiting == stack[..|waiting|] && stack[j] !in stack[..j]
    ensures stack[j] !in waiting
  {
    assert stack[..|waiting|] <= stack[..j];
  }

  lemma {:induction false} ReturnDeeper(waiting: seq<nat>, frames: seq<Frame>, st: State, next: State, stack: seq<nat>)
    requires Deeper(waiting, frames, st, stack) && |st.frames| > |frames|
    requires next.frames == st.frames[..|st.frames| - 1]
    ensures Deeper(waiting, frames, next, stack[..|stack| - 1])
  {
  }

  /** What a CALL does. */
  lemma {:induction false} CallEffect(
      fp: FloatModel, p: Bytecode.Program, maxDepth: nat, st: State, stack: seq<nat>, next: State)
    requires Good(fp, p) && Safe(fp, p, st, stack) && st.pc < |p.code| && p.code[st.pc].op.Call?
    requires Step(fp, p, maxDepth, st) == Running(next)
    ensures p.code[st.pc].b < |Table(p)|
    ensures next.frames == st.frames + [Frame(st.pc + 1, p.code[st.pc].a)]
    ensures OnlyWithin(st.regs, next.regs, Table(p)[p.code[st.pc].b].base, Table(p)[p.code[st.pc].b].arity)
  {
    CallIsReady(fp, p, stack[|stack| - 1], st.pc, st.regs);
    CallResult(fp, p, maxDepth, st);
  }

  /** The function called is not among those active. */
  lemma {:induction false} CalleeNotWaiting(
      fp: FloatModel, p: Bytecode.Program, maxDepth: nat, st: State, stack: seq<nat>, next: State)
    requires Good(fp, p) && Safe(fp, p, st, stack) && st.pc < |p.code| && p.code[st.pc].op.Call?
    requires Step(fp, p, maxDepth, st) == Running(next)
    ensures p.code[st.pc].b !in stack
  {
    var stack' := stack + [p.code[st.pc].b];
    StepKeepsSafe(fp, p, maxDepth, st, stack);
    CallerWaitsOnce(fp, p, next, stack', |stack|);
    assert stack'[..|stack|] == stack;
  }

  lemma {:induction false} CallDeeper(
      waiting: seq<nat>, frames: seq<Frame>, st: State, next: State, stack: seq<nat>, g: nat, frame: Frame)
    requires Deeper(waiting, frames, st, stack) && next.frames == st.frames + [frame]
    ensures Deeper(waiting, frames, next, stack + [g])
  {
  }

  lemma {:induction false} CallKeeps(
      fp: FloatModel, p: Bytecode.Program, owner: seq<nat>, maxDepth: nat, waiting: seq<nat>, frames: seq<Frame>,
      st: State, stack: seq<nat>)
    requires Good(fp, p) && Disjoint(p, owner) && Safe(fp, p, st, stack) && Deeper(waiting, frames, st, stack)
    requires frames != [] && Step(fp, p, maxDepth, st).Running?
    requires st.pc < |p.code| && p.code[st.pc].op.Call?
    ensures var next := Step(fp, p, maxDepth, st).state;
            && Kept(owner, waiting, frames[|frames| - 1].destination, st.regs, next.regs)
            && Deeper(waiting, frames, next, stack + [p.code[st.pc].b])
  {
    var next := Step(fp, p, maxDepth, st).state;
    CallEffect(fp, p, maxDepth, st, stack, next);
    CallDeeper(waiting, frames, st, next, stack, p.code[st.pc].b, Frame(st.pc + 1, p.code[st.pc].a));
    CalleeNotWaiting(fp, p, maxDepth, st, stack, next);
    ArgumentsKeep(p, owner, stack, waiting, frames[|frames| - 1].destination, p.code[st.pc].b, st.regs, next.regs);
  }

  /** Writing the parameters of a function that is not active changes nothing of those waiting. */
  lemma {:induction false} ArgumentsKeep(
      p: Bytecode.Program, owner: seq<nat>, stack: seq<nat>, waiting: seq<nat>, dst: nat, g: nat,
      regs: seq<Double>, regs': seq<Double>)
    requires Disjoint(p, owner) && |regs| == |owner| && g < |Table(p)| && g !in stack && waiting <= stack
    requires OnlyWithin(regs, regs', Table(p)[g].base, Table(p)[g].arity)
    ensures Kept(owner, waiting, dst, regs, regs')
  {
    assert ParametersOwn(p, owner, g);
    OthersKept(owner, waiting, dst, g, regs, regs', Table(p)[g].base, Table(p)[g].arity);
  }

  /** The whole call: the machine is inside until `last`, where it has just come back. */
  lemma {:induction false} InsideKeeps(
      fp: FloatModel, p: Bytecode.Program, owner: seq<nat>, maxDepth: nat, waiting: seq<nat>, frames: seq<Frame>,
      st: State, stack: seq<nat>, n: nat, last: State)
    requires Good(fp, p) && Disjoint(p, owner) && Safe(fp, p, st, stack) && Deeper(waiting, frames, st, stack) && frames != []
    requires StepsTo(fp, p, maxDepth, st, n) == Some(last) && |last.frames| < |frames|
    requires forall k: nat | k < n :: StaysAbove(fp, p, maxDepth, st, k, |frames|)
    ensures last.frames == frames[..|frames| - 1] && last.pc == frames[|frames| - 1].returnPc
    ensures Kept(owner, waiting, frames[|frames| - 1].destination, st.regs, last.regs)
    decreases n
  {
    StepKeeps(fp, p, owner, maxDepth, waiting, frames, st, stack);
    StepKeepsSafe(fp, p, maxDepth, st, stack);
    var next := Step(fp, p, maxDepth, st).state;
    assert n > 1 ==> StaysAbove(fp, p, maxDepth, st, 1, |frames|);
    assert StepsTo(fp, p, maxDepth, st, 1) == StepsTo(fp, p, maxDepth, next, 0);
    if |st.frames| == |frames| && p.code[st.pc].op.Return? {
      assert StepsTo(fp, p, maxDepth, next, 0) == Some(next);
    } else {
      forall k: nat | k < n - 1
        ensures StaysAbove(fp, p, maxDepth, next, k, |frames|)
      {
        assert StaysAbove(fp, p, maxDepth, st, k + 1, |frames|);
      }
      InsideKeeps(fp, p, owner, maxDepth, waiting, frames, next, StackAfter(p, st, stack), n - 1, last);
    }
  }

  ghost predicate StaysAbove(fp: FloatModel, p: Bytecode.Program, maxDepth: nat, st: State, k: nat, depth: nat) {
    StepsTo(fp, p, maxDepth, st, k).Some? && |StepsTo(fp, p, maxDepth, st, k).value.frames| >= depth
  }

  /** Frame non-interference: from a call to the moment its frame is gone, only the call's destination changes
      among all registers of the caller and of every function below it on the stack. */
  lemma {:induction false} CallsDoNotInterfere(
      fp: FloatModel, p: Bytecode.Program, owner: seq<nat>, maxDepth: nat, st: State, stack: seq<nat>, entry: State,
      n: nat, last: State)
    requires Good(fp, p) && Disjoint(p, owner) && Safe(fp, p, st, stack)
    requires st.pc < |p.code| && p.code[st.pc].op.Call? && Step(fp, p, maxDepth, st) == Running(entry)
    requires StepsTo(fp, p, maxDepth, entry, n) == Some(last) && |last.frames| < |entry.frames|
    requires forall k: nat | k < n :: StaysAbove(fp, p, maxDepth, entry, k, |entry.frames|)
    ensures last.frames == st.frames && last.pc == st.pc + 1
    ensures Kept(owner, stack, p.code[st.pc].a, st.regs, last.regs)
  {
    StepKeepsSafe(fp, p, maxDepth, st, stack);
    EntryKeeps(fp, p, owner, maxDepth, st, stack, entry);
    InsideKeeps(fp, p, owner, maxDepth, stack, entry.frames, entry, StackAfter(p, st, stack), n, last);
  }

  lemma {:induction false} EntryKeeps(
      fp: FloatModel, p: Bytecode.Program, owner: seq<nat>, maxDepth: nat, st: State, stack: seq<nat>, entry: State)
    requires Good(fp, p) && Disjoint(p, owner) && Safe(fp, p, st, stack)
    requires st.pc < |p.code| && p.code[st.pc].op.Call? && Step(fp, p, maxDepth, st) == Running(entry)
    ensures entry.frames == st.frames + [Frame(st.pc + 1, p.code[st.pc].a)]
    ensures Kept(owner, stack, p.code[st.pc].a, st.regs, entry.regs)
  {
    CallEffect(fp, p, maxDepth, st, stack, entry);
    CalleeNotWaiting(fp, p, maxDepth, st, stack, entry);
    ArgumentsKeep(p, owner, stack, stack, p.code[st.pc].a, p.code[st.pc].b, st.regs, entry.regs);
  }

  // ----- compiled programs -----

  /** From `from` on, only registers at or above `base` are written. */
  ghost predicate WritesHigh(code: seq<Instruction>, from: nat, base: nat) {
    forall pc | from <= pc < |code| && Writes(code[pc].op) :: base <= code[pc].a
  }

  lemma {:induction false} HighJoin(s: seq<Instruction>, t: seq<Instruction>, u: seq<Instruction>, base: nat)
    requires |s| <= |t| && t <= u && WritesHigh(t, |s|, base) && WritesHigh(u, |t|, base)
    ensures WritesHigh(u, |s|, base)
  {
    forall pc | |s| <= pc < |u| && Writes(u[pc].op)
      ensures base <= u[pc].a
    {
      if pc < |t| { assert u[pc] == t[pc]; }
    }
  }

  lemma {:induction false} ExprWrites(fp: FloatModel, fns: seq<Function>, s: Draft, base: nat, e: Expr, depth: nat)
    requires Ready(fp, fns, s, base) && LowerExpr(fp, fns, s, e, depth).Some?
    ensures WritesHigh(LowerExpr(fp, fns, s, e, depth).value.draft.code, |s.code|, base)
    decreases e, 1
  {
    match e
    case NumberLiteral(_) =>
    case BooleanLiteral(_) =>
    case Variable(_, _) =>
    case Binary(_, op, left, right) =>
      LowerOperandsOk(fp, fns, s, base, e, depth + 1);
      var x := LowerExpr(fp, fns, s, left, depth + 1).value;
      var y := LowerExpr(fp, fns, x.draft, right, depth + 1).value;
      ExprWrites(fp, fns, s, base, left, depth + 1);
      ExprWrites(fp, fns, x.draft, base, right, depth + 1);
      HighJoin(s.code, x.draft.code, y.draft.code, base);
      HighJoin(s.code, y.draft.code, LowerExpr(fp, fns, s, e, depth).value.draft.code, base);
    case Call(_, callee, args) =>
      var params := fns[FunctionIndex(fns, callee).value].params;
      LowerMovedOk(fp, fns, s, base, args, params, depth + 1);
      var xs := LowerArgs(fp, fns, s, args, params, depth + 1).value;
      var moved := EmitMoves(xs.draft, params, xs.regs).value;
      ArgsWrite(fp, fns, s, base, args, params, depth + 1);
      MovesWrite(xs.draft, base, params, xs.regs);
      HighJoin(s.code, xs.draft.code, moved.code, base);
      HighJoin(s.code, moved.code, LowerExpr(fp, fns, s, e, depth).value.draft.code, base);
  }

  lemma {:induction false} ArgsWrite(
      fp: FloatModel, fns: seq<Function>, s: Draft, base: nat, args: seq<Expr>, params: seq<Param>, depth: nat)
    requires Ready(fp, fns, s, base) && |args| == |params| && LowerArgs(fp, fns, s, args, params, depth).Some?
    ensures WritesHigh(LowerArgs(fp, fns, s, args, params, depth).value.draft.code, |s.code|, base)
    decreases args, 0
  {
    if args != [] {
      var x := LowerExpr(fp, fns, s, args[0], depth).value;
      LowerExprOk(fp, fns, s, base, args[0], depth);
      LocalsOkExtends(s, x.draft, base);
      LowerArgsOk(fp, fns, x.draft, base, args[1..], params[1..], depth);
      ExprWrites(fp, fns, s, base, args[0], depth);
      ArgsWrite(fp, fns, x.draft, base, args[1..], params[1..], depth);
      HighJoin(s.code, x.draft.code, LowerArgs(fp, fns, s, args, params, depth).value.draft.code, base);
    }
  }

  lemma {:induction false} MovesWrite(s: Draft, base: nat, params: seq<Param>, regs: seq<nat>)
    requires |params| == |regs| && EmitMoves(s, params, regs).Some? && base <= |s.types|
    ensures s.code <= EmitMoves(s, params, regs).value.code
    ensures WritesHigh(EmitMoves(s, params, regs).value.code, |s.code|, base)
    decreases |regs|
  {
    if regs != [] {
      var x := Produce(s, params[0].ty, Move, regs[0], 0, ZERO).value;
      MovesWrite(x.draft, base, params[1..], regs[1..]);
      HighJoin(s.code, x.draft.code, EmitMoves(s, params, regs).value.code, base);
    }
  }

  /** An expression and one instruction that writes high or not at all. */
  lemma {:induction false} ExprThenWrites(
      fp: FloatModel, fns: seq<Function>, s: Draft, base: nat, e: Expr, ins: Instruction, u: Draft)
    requires Ready(fp, fns, s, base) && LowerExpr(fp, fns, s, e, 0).Some?
    requires Emit(LowerExpr(fp, fns, s, e, 0).value.draft, ins) == Some(u) && (Writes(ins.op) ==> base <= ins.a)
    ensures s.code <= u.code && WritesHigh(u.code, |s.code|, base)
  {
    LowerExprOk(fp, fns, s, base, e, 0);
    ExprWrites(fp, fns, s, base, e, 0);
    HighJoin(s.code, LowerExpr(fp, fns, s, e, 0).value.draft.code, u.code, base);
  }

  lemma {:induction false} StmtWrites(
      fp: FloatModel, fns: seq<Function>, ret: Type, s: Draft, base: nat, st: Stmt, depth: nat)
    requires Ready(fp, fns, s, base) && LowerStmt(fp, fns, ret, s, st, depth).Some?
    ensures WritesHigh(LowerStmt(fp, fns, ret, s, st, depth).value.draft.code, |s.code|, base)
    decreases st, 1
  {
    var t := LowerStmt(fp, fns, ret, s, st, depth).value.draft;
    match st
    case Declare(ty, id, init) =>
      var s2 := Bind(Allocate(s, ty).value, id, |s.types|, ty).value;
      BindOk(s, base, id, ty);
      var x := LowerExpr(fp, fns, s2, init, 0).value;
      ExprThenWrites(fp, fns, s2, base, init, Instruction(Move, |s.types|, x.reg, 0, ZERO), t);
    case Assign(ty, id, value) =>
      var x := LowerExpr(fp, fns, s, value, 0).value;
      FindLocalCorrect(s.locals, id);
      ExprThenWrites(fp, fns, s, base, value, Instruction(Move, FindLocal(s.locals, id).value.reg, x.reg, 0, ZERO), t);
    case Return(ty, result) =>
      var x := LowerExpr(fp, fns, s, result, 0).value;
      ExprThenWrites(fp, fns, s, base, result, Instruction(Opcode.Return, x.reg, 0, 0, ZERO), t);
    case If(_, _, _) => IfWrites(fp, fns, ret, s, base, st, depth);
  }

  /** Code that differs in branches only. */
  lemma {:induction false} HighSame(a: seq<Instruction>, b: seq<Instruction>, from: nat, base: nat)
    requires WritesHigh(a, from, base) && |a| <= |b|
    requires forall pc | from <= pc < |b| :: Writes(b[pc].op) ==> pc < |a| && b[pc] == a[pc]
    ensures WritesHigh(b, from, base)
  {
  }

  lemma {:induction false} IfWrites(
      fp: FloatModel, fns: seq<Function>, ret: Type, s: Draft, base: nat, st: Stmt, depth: nat)
    requires Ready(fp, fns, s, base) && st.If? && LowerStmt(fp, fns, ret, s, st, depth).Some?
    ensures WritesHigh(LowerStmt(fp, fns, ret, s, st, depth).value.draft.code, |s.code|, base)
    decreases st, 0
  {
    IfParts(fp, fns, ret, s, base, st, depth);
    var x := LowerExpr(fp, fns, s, st.cond, 0).value;
    var head := IfHead(fp, fns, s, st);
    var a := IfThen(fp, fns, ret, s, st, depth).value;
    var m := IfMiddle(fp, fns, ret, s, st, depth);
    var r := LowerStmt(fp, fns, ret, s, st, depth).value;
    ExprThenWrites(fp, fns, s, base, st.cond, Instruction(JumpIfFalse, x.reg, UINT32_MAX, 0, ZERO), head);
    ListWrites(fp, fns, ret, head, base, st.thenBody, depth + 1);
    HighJoin(s.code, head.code, a.draft.code, base);
    HighSame(a.draft.code, m.code, |s.code|, base);
    if st.elseBody != [] {
      ListWrites(fp, fns, ret, m, base, st.elseBody, depth + 1);
      var e := LowerList(fp, fns, ret, m, st.elseBody, depth + 1).value;
      HighJoin(s.code, m.code, e.draft.code, base);
      HighSame(e.draft.code, r.draft.code, |s.code|, base);
    }
  }

  lemma {:induction false} ListWrites(
      fp: FloatModel, fns: seq<Function>, ret: Type, s: Draft, base: nat, ss: seq<Stmt>, depth: nat)
    requires Ready(fp, fns, s, base) && LowerList(fp, fns, ret, s, ss, depth).Some?
    ensures WritesHigh(LowerList(fp, fns, ret, s, ss, depth).value.draft.code, |s.code|, base)
    decreases ss
  {
    if ss != [] {
      var r := LowerStmt(fp, fns, ret, s, ss[0], depth).value;
      LowerStmtOk(fp, fns, ret, s, base, ss[0], depth);
      StmtWrites(fp, fns, ret, s, base, ss[0], depth);
      if |ss| > 1 {
        LowerListOk(fp, fns, ret, r.draft, base, ss[1..], depth);
        ListWrites(fp, fns, ret, r.draft, base, ss[1..], depth);
        HighJoin(s.code, r.draft.code, LowerList(fp, fns, ret, s, ss, depth).value.draft.code, base);
      }
    }
  }

  lemma {:induction false} FunctionWrites(fp: FloatModel, fns: seq<Function>, s: Draft, f: nat)
    requires fp.WellBehaved() && DistinctIds(fns) && Small(s) && f < |fns| && LowerFunction(fp, fns, s, f).Some?
    ensures WritesHigh(LowerFunction(fp, fns, s, f).value.code, |s.code|, |s.types|)
  {
    var o := OpenFunction(s, f, fns[f].params).value;
    OpenFunctionOk(s, f, fns[f].params);
    LowerListOk(fp, fns, fns[f].returnType, o, |s.types|, fns[f].body, 0);
    ListWrites(fp, fns, fns[f].returnType, o, |s.types|, fns[f].body, 0);
    HighJoin(s.code, o.code, LowerFunction(fp, fns, s, f).value.code, |s.types|);
  }

  ghost function OwnersOf(pre: seq<Draft>): seq<nat>
    requires |pre| > 0 && pre[0].types == []
  {
    var n := |pre| - 1;
    seq(|pre[n].types|, r requires 0 <= r < |pre[n].types| => RegisterOwner(pre, n, r))
  }

  /** A position of function f writes registers of function f. */
  lemma {:induction false} CompiledWritesOwn(fp: FloatModel, fns: seq<Function>, pre: seq<Draft>, p: Bytecode.Program, pc: nat)
    requires LaidOut(fp, fns, pre, p) && Tiled(p, Table(p))
    requires |Table(p)| == |fns| && forall f | 0 <= f < |fns| :: Table(p)[f] == InfoOf(fns, pre, f)
    ensures WritesOwn(p, OwnersOf(pre), pc)
  {
    if pc < |p.code| && Writes(p.code[pc].op) {
      var f := CodeOwner(fp, fns, pre, |fns|, pc);
      OwnerOfLayout(fp, fns, pre, p, f, pc);
      assert Laid(fp, fns, pre, f);
      if pc == |pre[f].code| { MarkerAt(fp, fns, pre, f); } else { BodyAt(fp, fns, pre, f, pc); }
      FunctionWrites(fp, fns, pre[f], f);
      LayoutExtends(fp, fns, pre, f + 1, |fns|);
      BodyWrite(fp, fns, pre, f, pc);
      RegisterOwnerIs(fp, fns, pre, f, p.code[pc].a);
    }
  }

  /** The written register exists when the function is complete. */
  lemma {:induction false} BodyWrite(fp: FloatModel, fns: seq<Function>, pre: seq<Draft>, f: nat, pc: nat)
    requires Layout(fp, fns, pre) && f < |fns| && |pre[f].code| < pc < |pre[f + 1].code| && Writes(pre[f + 1].code[pc].op)
    ensures pre[f + 1].code[pc].a < |pre[f + 1].types|
  {
    assert Laid(fp, fns, pre, f);
    assert BodyIns(fp, fns, fns[f].returnType, pre[f + 1].types, pre[f + 1].code[pc], pc, |pre[f + 1].code| - 1);
  }

  lemma {:induction false} CompiledParametersOwn(fp: FloatModel, fns: seq<Function>, pre: seq<Draft>, p: Bytecode.Program, f: nat)
    requires LaidOut(fp, fns, pre, p)
    requires |Table(p)| == |fns| && forall f | 0 <= f < |fns| :: Table(p)[f] == InfoOf(fns, pre, f)
    ensures ParametersOwn(p, OwnersOf(pre), f)
  {
    if f < |fns| {
      assert Laid(fp, fns, pre, f);
      LayoutExtends(fp, fns, pre, f + 1, |fns|);
      assert Table(p)[f] == InfoOf(fns, pre, f);
      forall r | |pre[f].types| <= r < |pre[f].types| + |fns[f].params|
        ensures r < |OwnersOf(pre)| && OwnersOf(pre)[r] == f
      {
        RegisterOwnerIs(fp, fns, pre, f, r);
      }
    }
  }

  /** The compiler never gives a register to two functions. */
  lemma {:induction false} CompiledRegistersAreDisjoint(fp: FloatModel, hir: ScalarHir, p: Bytecode.Program)
      returns (owner: seq<nat>)
    requires fp.WellBehaved() && Compile(fp, hir) == Some(p)
    ensures Good(fp, p) && Disjoint(p, owner)
  {
    CompiledCodeIsAccepted(fp, hir, p);
    AcceptedIff(fp, p);
    var pre, g, rank := CompiledOf(fp, hir, p);
    var fns := Ordered(hir);
    OrderedFacts(hir);
    TableAccepted(fp, fns, pre, p);
    owner := OwnersOf(pre);
    forall pc: nat
      ensures WritesOwn(p, owner, pc) && ParametersOwn(p, owner, pc)
    {
      CompiledWritesOwn(fp, fns, pre, p, pc);
      CompiledParametersOwn(fp, fns, pre, p, pc);
    }
  }

  /** Compiled programs: whatever state a run has reached, a call made there changes nothing of the functions that are
      active, except the register its value goes to. */
  lemma {:induction false} CompiledCallsDoNotInterfere(
      fp: FloatModel, hir: ScalarHir, p: Bytecode.Program, maxDepth: nat, m: nat, st: State, entry: State, n: nat, last: State)
      returns (owner: seq<nat>, stack: seq<nat>)
    requires fp.WellBehaved() && Compile(fp, hir) == Some(p)
    requires |Table(p)| > 0 && StepsTo(fp, p, maxDepth, InitialState(p), m) == Some(st)
    requires st.pc < |p.code| && p.code[st.pc].op.Call? && Step(fp, p, maxDepth, st) == Running(entry)
    requires StepsTo(fp, p, maxDepth, entry, n) == Some(last) && |last.frames| < |entry.frames|
    requires forall k: nat | k < n :: StaysAbove(fp, p, maxDepth, entry, k, |entry.frames|)
    ensures Disjoint(p, owner) && Safe(fp, p, st, stack)
    ensures last.frames == st.frames && last.pc == st.pc + 1
    ensures Kept(owner, stack, p.code[st.pc].a, st.regs, last.regs)
  {
    owner := CompiledRegistersAreDisjoint(fp, hir, p);
    stack := RunKeepsSafe(fp, p, maxDepth, m, st);
    CallsDoNotInterfere(fp, p, owner, maxDepth, st, stack, entry, n, last);
  }
}
