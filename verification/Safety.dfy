/** Accepted programs never go wrong: an invariant of every machine state a run can reach. */
module Safety {
  import opened Wrappers
  import opened Floats
  import opened Bytecode
  import opened CallGraph
  import opened Verifier
  import opened Verification

  /** Registers are finite numbers; in version 1.2 boolean registers hold zero or one. */
  ghost predicate RegsOk(fp: FloatModel, p: Program, regs: seq<Double>) {
    && |regs| == p.registerCount
    && forall r | 0 <= r < |regs| :: RegOk(fp, p, r, regs[r])
  }

  predicate RegOk(fp: FloatModel, p: Program, r: nat, v: Double) {
    fp.finite(v) && (p.minor == TYPED_MINOR && r < |p.registerTypes| && p.registerTypes[r] == BOOLEAN_TAG ==> IsFlag(fp, v))
  }

  /** Position pc is reached in the control flow of function f. */
  ghost predicate Inside(p: Program, f: nat, pc: nat) {
    f < |Table(p)| && Reachable(p, Table(p)[f].start, pc)
  }

  /** Function f has called function g and waits for the value. */
  ghost predicate FrameOk(p: Program, f: nat, g: nat, frame: Frame) {
    && Inside(p, f, frame.returnPc)
    && 0 < frame.returnPc <= |p.code|
    && CallsFrom(p, f, frame.returnPc - 1)
    && p.code[frame.returnPc - 1].b == g && p.code[frame.returnPc - 1].a == frame.destination
  }

  ghost predicate CallsFrom(p: Program, f: nat, pc: nat) {
    |Table(p)| > 0 && pc < |p.code| && p.code[pc].op.Call? && OwnerOf(Table(p), pc) == f
  }

  /** `stack` names the active functions, the entry function first. */
  ghost predicate Safe(fp: FloatModel, p: Program, st: State, stack: seq<nat>) {
    && |stack| == |st.frames| + 1 && stack[0] == 0
    && Inside(p, stack[|stack| - 1], st.pc)
    && FramesOk(p, stack, st.frames)
    && RegsOk(fp, p, st.regs)
  }

  ghost predicate FramesOk(p: Program, stack: seq<nat>, frames: seq<Frame>) {
    && |stack| == |frames| + 1
    && forall j | 0 < j < |stack| :: FrameAt(p, stack, frames, j)
  }

  /** The frame that active function j will return through. */
  ghost predicate FrameAt(p: Program, stack: seq<nat>, frames: seq<Frame>, j: nat) {
    0 < j < |stack| && j <= |frames| && FrameOk(p, stack[j - 1], stack[j], frames[j - 1])
  }

  lemma {:induction false} PushFrame(p: Program, stack: seq<nat>, frames: seq<Frame>, g: nat, frame: Frame)
    requires FramesOk(p, stack, frames) && FrameOk(p, stack[|stack| - 1], g, frame)
    ensures FramesOk(p, stack + [g], frames + [frame])
  {
    var stack', frames' := stack + [g], frames + [frame];
    forall j | 0 < j < |stack'|
      ensures FrameAt(p, stack', frames', j)
    {
      if j < |stack| { assert FrameAt(p, stack, frames, j); }
    }
  }

  lemma {:induction false} PopFrame(p: Program, stack: seq<nat>, frames: seq<Frame>)
    requires FramesOk(p, stack, frames) && frames != []
    ensures FramesOk(p, stack[..|stack| - 1], frames[..|frames| - 1])
  {
    var stack', frames' := stack[..|stack| - 1], frames[..|frames| - 1];
    forall j | 0 < j < |stack'|
      ensures FrameAt(p, stack', frames', j)
    {
      assert FrameAt(p, stack, frames, j);
    }
  }

  ghost predicate Good(fp: FloatModel, p: Program) {
    fp.WellBehaved() && Accepted(fp, p)
  }

  // ----- control flow inside a function -----

  lemma {:induction false} InsideFlow(fp: FloatModel, p: Program, f: nat, pc: nat)
    requires Accepted(fp, p) && Inside(p, f, pc)
    ensures FlowOk(p, Table(p), f, pc) && OperandsOk(fp, p, Table(p), pc)
    ensures forall to | to in Successors(p, pc) :: Inside(p, f, to)
    ensures p.minor == TYPED_MINOR ==> TagsOk(p) && TypesOk(fp, p, Table(p), pc)
  {
    var fns := Table(p);
    assert FlowsOk(p, fns, f);
    assert InstructionOk(fp, p, pc);
    forall to | to in Successors(p, pc)
      ensures Inside(p, f, to)
    {
      ReachableNext(p, fns[f].start, pc, to);
    }
  }

  /** Entering a function. */
  lemma {:induction false} InsideStart(fp: FloatModel, p: Program, f: nat)
    requires Accepted(fp, p) && f < |Table(p)|
    ensures Inside(p, f, Table(p)[f].start)
  {
    assert FlowsOk(p, Table(p), f);
    ReachableStart(p, Table(p)[f].start);
  }

  // ----- values -----

  lemma {:induction false} WriteOk(fp: FloatModel, p: Program, regs: seq<Double>, a: nat, v: Double)
    requires RegsOk(fp, p, regs) && a < |regs| && RegOk(fp, p, a, v)
    ensures RegsOk(fp, p, regs[a := v])
  {
  }

  predicate IsPlain(op: Opcode) {
    op.ConstF64? || op.ConstBool? || op.Move? || op.Neg? || op.Calc? || op.Test?
  }

  /** An instruction that fills a register and goes on: it fills it well, or reports a fault. */
  lemma {:induction false} PlainStep(fp: FloatModel, p: Program, maxDepth: nat, st: State)
    requires fp.WellBehaved() && |Table(p)| > 0 && RegsOk(fp, p, st.regs)
    requires st.pc < |p.code| && IsPlain(p.code[st.pc].op)
    requires OperandsOk(fp, p, Table(p), st.pc) && BasesOk(p, Table(p))
    requires p.minor == TYPED_MINOR ==> TagsOk(p) && TypesOk(fp, p, Table(p), st.pc)
    ensures match Step(fp, p, maxDepth, st)
            case Running(next) =>
              && next.pc == st.pc + 1 && next.frames == st.frames
              && RegsOk(fp, p, next.regs)
            case Halted(h) => IsFault(h)
  {
    var ins, regs := p.code[st.pc], st.regs;
    var v := match ins.op
             case Move => regs[ins.b]
             case Neg => fp.neg(regs[ins.b])
             case Calc(op) => fp.arith(op, regs[ins.b], regs[ins.c])
             case Test(op) => Truth(fp.test(op, regs[ins.b], regs[ins.c]))
             case _ => ins.imm;
    if fp.finite(v) {
      assert ins.op.Move? ==> RegOk(fp, p, ins.b, regs[ins.b]);
      assert RegOk(fp, p, ins.a, v);
      WriteOk(fp, p, regs, ins.a, v);
    }
  }

  /** Arguments have the types of the parameters they become. */
  lemma {:induction false} ArgsOk(fp: FloatModel, p: Program, pc: nat, regs: seq<Double>)
    requires |Table(p)| > 0 && RegsOk(fp, p, regs) && BasesOk(p, Table(p)) && pc < |p.code| && p.code[pc].op.Call?
    requires OperandsOk(fp, p, Table(p), pc)
    requires p.minor == TYPED_MINOR ==> TagsOk(p) && TypesOk(fp, p, Table(p), pc)
    ensures var ins := p.code[pc];
            var info := Table(p)[ins.b];
            && CallFits(Table(p), |regs|, ins.b, ins.c, info.arity)
            && fp.whole(ins.imm) == Some(info.arity)
            && RegsOk(fp, p, WriteArgs(regs, info.base, regs[ins.c..ins.c + info.arity]))
  {
    var fns := Table(p);
    var ins := p.code[pc];
    var info := fns[ins.b];
    assert info.base + info.arity <= p.registerCount;
    var args := regs[ins.c..ins.c + info.arity];
    var regs' := WriteArgs(regs, info.base, args);
    forall r | 0 <= r < |regs'|
      ensures RegOk(fp, p, r, regs'[r])
    {
      if info.base <= r < info.base + info.arity {
        var i := r - info.base;
        assert regs'[r] == regs[ins.c + i];
        assert RegOk(fp, p, ins.c + i, regs[ins.c + i]);
        assert p.minor == TYPED_MINOR ==> SameTag(p.registerTypes, ins.c, info.base, i);
      }
    }
  }

  // ----- the step invariant -----

  /** How deep calls can be: every active function ranks below its caller. */
  lemma {:induction false} DepthBound(fp: FloatModel, p: Program, st: State, stack: seq<nat>, rank: seq<nat>, i: nat)
    requires Accepted(fp, p) && Safe(fp, p, st, stack) && IsRank(CallEdges(p, Table(p)), rank) && i < |stack|
    ensures stack[i] < |rank| == |Table(p)| && rank[stack[i]] + i < |rank|
    decreases i
  {
    var fns := Table(p);
    var g := CallEdges(p, fns);
    if i == 0 {
      assert stack[0] < |g|;
    } else {
      DepthBound(fp, p, st, stack, rank, i - 1);
      var f, h := stack[i - 1], stack[i];
      assert FrameAt(p, stack, st.frames, i);
      assert g[f] == Callees(p, fns, f);
      assert h in g[f];
    }
  }

  lemma {:induction false} CallRank(fp: FloatModel, p: Program, f: nat, pc: nat, rank: seq<nat>)
    requires Accepted(fp, p) && IsRank(CallEdges(p, Table(p)), rank) && CallsFrom(p, f, pc) && f < |Table(p)|
    ensures p.code[pc].b < |rank| == |Table(p)| && rank[p.code[pc].b] < rank[f]
  {
    var g := CallEdges(p, Table(p));
    assert g[f] == Callees(p, Table(p), f);
    assert p.code[pc].b in g[f];
  }

  /** What a step may do: go on safely, finish with a finite number, fault, or, if the frame limit is below
      the number of functions, run out of frames. */
  ghost predicate StepSafe(fp: FloatModel, p: Program, maxDepth: nat, out: Outcome, stack': seq<nat>) {
    match out
    case Running(next) => Safe(fp, p, next, stack')
    case Halted(h) =>
      || (h.Finished? && fp.finite(h.value))
      || IsFault(h)
      || (h.DepthExhausted? && maxDepth + 1 < |Table(p)|)
  }

  lemma {:induction false} SafePlain(fp: FloatModel, p: Program, maxDepth: nat, st: State, stack: seq<nat>)
    requires Good(fp, p) && Safe(fp, p, st, stack) && st.pc < |p.code| && IsPlain(p.code[st.pc].op)
    ensures StepSafe(fp, p, maxDepth, Step(fp, p, maxDepth, st), stack)
  {
    var f := stack[|stack| - 1];
    InsideFlow(fp, p, f, st.pc);
    PlainStep(fp, p, maxDepth, st);
    assert st.pc + 1 in Successors(p, st.pc);
    if Step(fp, p, maxDepth, st).Running? { StaySafe(fp, p, st, stack, Step(fp, p, maxDepth, st).state); }
  }

  /** Going on within the function on top of the stack. */
  lemma {:induction false} StaySafe(fp: FloatModel, p: Program, st: State, stack: seq<nat>, next: State)
    requires Safe(fp, p, st, stack) && next.frames == st.frames && RegsOk(fp, p, next.regs)
    requires Inside(p, stack[|stack| - 1], next.pc)
    ensures Safe(fp, p, next, stack)
  {
  }

  lemma {:induction false} SafeBranch(fp: FloatModel, p: Program, maxDepth: nat, st: State, stack: seq<nat>)
    requires Good(fp, p) && Safe(fp, p, st, stack) && st.pc < |p.code|
    requires p.code[st.pc].op.Jump? || p.code[st.pc].op.JumpIfFalse?
    ensures StepSafe(fp, p, maxDepth, Step(fp, p, maxDepth, st), stack)
  {
    var f := stack[|stack| - 1];
    InsideFlow(fp, p, f, st.pc);
    var next := Step(fp, p, maxDepth, st).state;
    assert next.pc in Successors(p, st.pc);
  }

  /** Coming back to a caller. */
  lemma {:induction false} SafePop(fp: FloatModel, p: Program, st: State, stack: seq<nat>, v: Double)
    requires Safe(fp, p, st, stack) && st.frames != []
    requires var frame := st.frames[|st.frames| - 1];
             frame.destination < |st.regs| && RegOk(fp, p, frame.destination, v)
    ensures var frame := st.frames[|st.frames| - 1];
            Safe(fp, p, State(frame.returnPc, st.regs[frame.destination := v], st.frames[..|st.frames| - 1]),
                 stack[..|stack| - 1])
  {
    var n := |stack| - 1;
    assert FrameAt(p, stack, st.frames, n);
    WriteOk(fp, p, st.regs, st.frames[n - 1].destination, v);
    PopFrame(p, stack, st.frames);
  }

  lemma {:induction false} CallDestination(fp: FloatModel, p: Program, pc: nat)
    requires pc < |p.code| && p.code[pc].op.Call? && BasesOk(p, Table(p)) && InstructionOk(fp, p, pc)
    ensures p.code[pc].a < p.registerCount && p.code[pc].b < |Table(p)|
    ensures p.minor == TYPED_MINOR ==>
              |p.registerTypes| == p.registerCount && p.registerTypes[p.code[pc].a] == Table(p)[p.code[pc].b].returnTag
  {
  }

  lemma {:induction false} ReturnSource(fp: FloatModel, p: Program, g: nat, pc: nat)
    requires pc < |p.code| && p.code[pc].op.Return? && BasesOk(p, Table(p)) && InstructionOk(fp, p, pc)
    requires OwnerOf(Table(p), pc) == g
    ensures p.code[pc].a < p.registerCount
    ensures p.minor == TYPED_MINOR ==>
              |p.registerTypes| == p.registerCount && p.registerTypes[p.code[pc].a] == Table(p)[g].returnTag
  {
  }

  lemma {:induction false} SameType(fp: FloatModel, p: Program, regs: seq<Double>, a: nat, b: nat)
    requires RegsOk(fp, p, regs) && a < p.registerCount && b < p.registerCount
    requires p.minor == TYPED_MINOR ==> |p.registerTypes| == p.registerCount && p.registerTypes[a] == p.registerTypes[b]
    ensures RegOk(fp, p, b, regs[a])
  {
    assert RegOk(fp, p, a, regs[a]);
  }

  lemma {:induction false} AcceptedAt(fp: FloatModel, p: Program, pc: nat)
    requires Accepted(fp, p) && pc < |p.code|
    ensures BasesOk(p, Table(p)) && InstructionOk(fp, p, pc)
  {
  }

  /** The value a function returns has the type of the register its caller keeps for it. */
  lemma {:induction false} ReturnFits(fp: FloatModel, p: Program, f: nat, g: nat, pc: nat, frame: Frame, regs: seq<Double>)
    requires Accepted(fp, p) && FrameOk(p, f, g, frame) && Inside(p, g, pc) && pc < |p.code| && p.code[pc].op.Return?
    requires RegsOk(fp, p, regs)
    ensures p.code[pc].a < |regs| && frame.destination < |regs| && RegOk(fp, p, frame.destination, regs[p.code[pc].a])
  {
    AcceptedAt(fp, p, pc);
    AcceptedAt(fp, p, frame.returnPc - 1);
    InsideFlow(fp, p, g, pc);
    CallDestination(fp, p, frame.returnPc - 1);
    ReturnSource(fp, p, g, pc);
    SameType(fp, p, regs, p.code[pc].a, frame.destination);
  }

  lemma {:induction false} SafeReturn(fp: FloatModel, p: Program, maxDepth: nat, st: State, stack: seq<nat>)
    requires Good(fp, p) && Safe(fp, p, st, stack) && st.pc < |p.code| && p.code[st.pc].op.Return?
    ensures StepSafe(fp, p, maxDepth, Step(fp, p, maxDepth, st), stack[..|stack| - 1])
  {
    var n, a := |stack| - 1, p.code[st.pc].a;
    if n > 0 {
      assert FrameAt(p, stack, st.frames, n);
      ReturnFits(fp, p, stack[n - 1], stack[n], st.pc, st.frames[n - 1], st.regs);
      SafePop(fp, p, st, stack, st.regs[a]);
    } else {
      InsideFlow(fp, p, stack[n], st.pc);
      assert RegOk(fp, p, a, st.regs[a]);
    }
  }

  lemma {:induction false} CallResult(fp: FloatModel, p: Program, maxDepth: nat, st: State)
    requires st.pc < |p.code| && p.code[st.pc].op.Call? && p.code[st.pc].b < |Table(p)|
    requires var info := Table(p)[p.code[st.pc].b];
             && fp.whole(p.code[st.pc].imm) == Some(info.arity)
             && CallFits(Table(p), |st.regs|, p.code[st.pc].b, p.code[st.pc].c, info.arity)
    ensures var ins := p.code[st.pc];
            var info := Table(p)[ins.b];
            Step(fp, p, maxDepth, st) ==
              if |st.frames| >= maxDepth then Halted(DepthExhausted)
              else Running(State(info.start, WriteArgs(st.regs, info.base, st.regs[ins.c..ins.c + info.arity]),
                                 st.frames + [Frame(st.pc + 1, ins.a)]))
  {
  }

  /** Entering a callee. */
  lemma {:induction false} SafePush(fp: FloatModel, p: Program, st: State, stack: seq<nat>, g: nat, regs: seq<Double>)
    requires Safe(fp, p, st, stack) && CallsFrom(p, stack[|stack| - 1], st.pc) && p.code[st.pc].b == g
    requires Inside(p, stack[|stack| - 1], st.pc + 1) && g < |Table(p)| && Inside(p, g, Table(p)[g].start)
    requires RegsOk(fp, p, regs)
    ensures Safe(fp, p, State(Table(p)[g].start, regs, st.frames + [Frame(st.pc + 1, p.code[st.pc].a)]), stack + [g])
  {
    PushFrame(p, stack, st.frames, g, Frame(st.pc + 1, p.code[st.pc].a));
  }

  /** What the verifier has checked about a call. */
  ghost predicate CallReady(fp: FloatModel, p: Program, f: nat, pc: nat, regs: seq<Double>) {
    && CallsFrom(p, f, pc) && Inside(p, f, pc + 1)
    && p.code[pc].b < |Table(p)| && Inside(p, p.code[pc].b, Table(p)[p.code[pc].b].start)
    && var info := Table(p)[p.code[pc].b];
    && fp.whole(p.code[pc].imm) == Some(info.arity)
    && CallFits(Table(p), |regs|, p.code[pc].b, p.code[pc].c, info.arity)
    && RegsOk(fp, p, WriteArgs(regs, info.base, regs[p.code[pc].c..p.code[pc].c + info.arity]))
  }

  lemma {:induction false} CallIsReady(fp: FloatModel, p: Program, f: nat, pc: nat, regs: seq<Double>)
    requires Good(fp, p) && Inside(p, f, pc) && pc < |p.code| && p.code[pc].op.Call? && RegsOk(fp, p, regs)
    ensures CallReady(fp, p, f, pc, regs)
  {
    InsideFlow(fp, p, f, pc);
    ArgsOk(fp, p, pc, regs);
    InsideStart(fp, p, p.code[pc].b);
    assert pc + 1 in Successors(p, pc);
  }

  lemma {:induction false} SafeCall(fp: FloatModel, p: Program, maxDepth: nat, st: State, stack: seq<nat>)
    requires Safe(fp, p, st, stack) && CallReady(fp, p, stack[|stack| - 1], st.pc, st.regs)
    requires |st.frames| + 1 < |Table(p)|
    ensures StepSafe(fp, p, maxDepth, Step(fp, p, maxDepth, st), stack + [p.code[st.pc].b])
  {
    CallResult(fp, p, maxDepth, st);
    var out := Step(fp, p, maxDepth, st);
    if out.Running? { ReadyPush(fp, p, st, stack, out.state); }
  }

  lemma {:induction false} ReadyPush(fp: FloatModel, p: Program, st: State, stack: seq<nat>, next: State)
    requires Safe(fp, p, st, stack) && CallReady(fp, p, stack[|stack| - 1], st.pc, st.regs)
    requires var ins := p.code[st.pc];
             var info := Table(p)[ins.b];
             && next.pc == info.start && next.frames == st.frames + [Frame(st.pc + 1, ins.a)]
             && next.regs == WriteArgs(st.regs, info.base, st.regs[ins.c..ins.c + info.arity])
    ensures Safe(fp, p, next, stack + [p.code[st.pc].b])
  {
    SafePush(fp, p, st, stack, p.code[st.pc].b, next.regs);
    assert next == State(next.pc, next.regs, next.frames);
  }

  /** At a call there are still functions that are not active. */
  lemma {:induction false} RoomToCall(fp: FloatModel, p: Program, st: State, stack: seq<nat>)
    requires Good(fp, p) && Safe(fp, p, st, stack) && CallsFrom(p, stack[|stack| - 1], st.pc)
    ensures |st.frames| + 1 < |Table(p)|
  {
    var rank :| IsRank(CallEdges(p, Table(p)), rank);
    DepthBound(fp, p, st, stack, rank, |stack| - 1);
    CallRank(fp, p, stack[|stack| - 1], st.pc, rank);
  }

  function StackAfter(p: Program, st: State, stack: seq<nat>): seq<nat>
    requires st.pc < |p.code|
  {
    if p.code[st.pc].op.Return? && stack != [] then stack[..|stack| - 1]
    else if p.code[st.pc].op.Call? then stack + [p.code[st.pc].b]
    else stack
  }

  /** The invariant of every step of an accepted program.  In particular the machine never leaves the code,
      never executes a marker or an unknown instruction, and no check of the loop on registers, targets or
      frame ranges ever fails. */
  lemma {:induction false} StepKeepsSafe(fp: FloatModel, p: Program, maxDepth: nat, st: State, stack: seq<nat>)
    requires Good(fp, p) && Safe(fp, p, st, stack)
    ensures st.pc < |p.code| && !p.code[st.pc].op.FunctionMark?
    ensures StepSafe(fp, p, maxDepth, Step(fp, p, maxDepth, st), StackAfter(p, st, stack))
  {
    InsideFlow(fp, p, stack[|stack| - 1], st.pc);
    var op := p.code[st.pc].op;
    if IsPlain(op) { SafePlain(fp, p, maxDepth, st, stack); }
    else if op.Jump? || op.JumpIfFalse? { SafeBranch(fp, p, maxDepth, st, stack); }
    else if op.Return? { SafeReturn(fp, p, maxDepth, st, stack); }
    else if op.Call? {
      CallIsReady(fp, p, stack[|stack| - 1], st.pc, st.regs);
      RoomToCall(fp, p, st, stack);
      SafeCall(fp, p, maxDepth, st, stack);
    }
  }

  lemma {:induction false} InitialSafe(fp: FloatModel, p: Program)
    requires Good(fp, p)
    ensures Safe(fp, p, InitialState(p), [0])
  {
    InsideStart(fp, p, 0);
  }

  /** All states of a run are safe. */
  lemma {:induction false} RunKeepsSafe(fp: FloatModel, p: Program, maxDepth: nat, n: nat, st: State)
      returns (stack: seq<nat>)
    requires Good(fp, p) && StepsTo(fp, p, maxDepth, InitialState(p), n) == Some(st)
    ensures Safe(fp, p, st, stack) && |st.frames| < |Table(p)|
    decreases n
  {
    var start := InitialState(p);
    InitialSafe(fp, p);
    stack := SafeFrom(fp, p, maxDepth, start, [0], n, st);
    var rank :| IsRank(CallEdges(p, Table(p)), rank);
    DepthBound(fp, p, st, stack, rank, |stack| - 1);
  }

  lemma {:induction false} SafeFrom(fp: FloatModel, p: Program, maxDepth: nat, st: State, stack: seq<nat>, n: nat, last: State)
      returns (stack': seq<nat>)
    requires Good(fp, p) && Safe(fp, p, st, stack) && StepsTo(fp, p, maxDepth, st, n) == Some(last)
    ensures Safe(fp, p, last, stack')
    decreases n
  {
    if n == 0 {
      stack' := stack;
    } else {
      StepKeepsSafe(fp, p, maxDepth, st, stack);
      stack' := SafeFrom(fp, p, maxDepth, Step(fp, p, maxDepth, st).state, StackAfter(p, st, stack), n - 1, last);
    }
  }

  /** The results a run of an accepted program can have. */
  ghost predicate SafeResult(fp: FloatModel, p: Program, maxDepth: nat, r: RunResult) {
    match r
    case StepLimit => true
    case Stopped(h, _) =>
      || (h.Finished? && fp.finite(h.value))
      || IsFault(h)
      || (h.DepthExhausted? && maxDepth + 1 < |Table(p)|)
  }

  lemma {:induction false} RunFromSafe(
      fp: FloatModel, p: Program, maxDepth: nat, maxSteps: nat, st: State, stack: seq<nat>, steps: nat)
    requires Good(fp, p) && Safe(fp, p, st, stack)
    ensures SafeResult(fp, p, maxDepth, RunFrom(fp, p, maxDepth, maxSteps, st, steps))
    decreases maxSteps - steps
  {
    StepKeepsSafe(fp, p, maxDepth, st, stack);
    if steps < maxSteps {
      var out := Step(fp, p, maxDepth, st);
      if out.Running? { RunFromSafe(fp, p, maxDepth, maxSteps, out.state, StackAfter(p, st, stack), steps + 1); }
    }
  }

  /** With the default frame limit a run of an accepted program ends in a finite number, a division by zero,
      a number that is not finite, or the step limit, and in nothing else. */
  lemma {:induction false} AcceptedProgramsRunSafely(fp: FloatModel, p: Program, maxSteps: nat)
    requires fp.WellBehaved() && VerifyStatus(fp, p) == Ok
    ensures |Table(p)| > 0
    ensures match Run(fp, p, MAX_CALL_DEPTH, maxSteps)
            case Stopped(h, _) => IsFault(h) || (h.Finished? && fp.finite(h.value))
            case StepLimit => true
  {
    AcceptedIff(fp, p);
    InitialSafe(fp, p);
    RunFromSafe(fp, p, MAX_CALL_DEPTH, maxSteps, InitialState(p), [0], 0);
  }
}
