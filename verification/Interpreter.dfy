/** The fetch-execute loop over one register array and one frame array. */
module Interpreter {
  import opened Wrappers
  import opened Floats
  import opened Bytecode
  import opened CallGraph
  import opened Verifier
  import opened Verification
  import opened Safety
  import Signatures

  datatype Execution = Rejected(status: Status) | Ran(result: RunResult)

  /** Register operands in range. */
  predicate PlainOperands(ins: Instruction, registers: nat) {
    && IsPlain(ins.op) && ins.a < registers
    && (ins.op.Move? || ins.op.Neg? || ins.op.Calc? || ins.op.Test? ==> ins.b < registers)
    && (ins.op.Calc? || ins.op.Test? ==> ins.c < registers)
  }

  /** Constants, moves, arithmetic and comparisons: one register is written, unless the result is refused. */
  method ExecutePlain(
      fp: FloatModel, p: Program, pc: nat, registers: array<Double>, ghost maxDepth: nat, ghost frames: seq<Frame>)
      returns (stop: Option<Halt>)
    requires pc < |p.code| && PlainOperands(p.code[pc], registers.Length)
    modifies registers
    ensures Step(fp, p, maxDepth, State(pc, old(registers[..]), frames))
         == if stop.Some? then Halted(stop.value) else Running(State(pc + 1, registers[..], frames))
  {
    var ins := p.code[pc];
    match ins.op {
      case ConstF64 => registers[ins.a] := ins.imm;
      case ConstBool => registers[ins.a] := ins.imm;
      case Move => registers[ins.a] := registers[ins.b];
      case Neg =>
        var value := fp.neg(registers[ins.b]);
        if !fp.finite(value) { return Some(NonFinite); }
        registers[ins.a] := value;
      case Calc(op) =>
        var left, right := registers[ins.b], registers[ins.c];
        if op == Divide && fp.isZero(right) { return Some(DivisionByZero); }
        var value := fp.arith(op, left, right);
        if !fp.finite(value) { return Some(NonFinite); }
        registers[ins.a] := value;
      case Test(op) =>
        registers[ins.a] := if fp.test(op, registers[ins.b], registers[ins.c]) then ONE else ZERO;
    }
    stop := None;
  }

  /** Arguments are copied out before the parameters are written, so the two ranges may overlap. */
  method CopyArguments(registers: array<Double>, from: nat, base: nat, arity: nat)
    requires from + arity <= registers.Length && base + arity <= registers.Length
    modifies registers
    ensures registers[..] == WriteArgs(old(registers[..]), base, old(registers[from..from + arity]))
  {
    ghost var was := registers[..];
    var args := new Double[arity](_ => ZERO);
    for i := 0 to arity
      invariant registers[..] == was
      invariant forall k | 0 <= k < i :: args[k] == registers[from + k]
    {
      args[i] := registers[from + i];
    }
    for i := 0 to arity
      invariant forall k | 0 <= k < arity :: args[k] == was[from + k]
      invariant forall r | 0 <= r < registers.Length ::
                  registers[r] == if base <= r < base + i then args[r - base] else was[r]
    {
      registers[base + i] := args[i];
    }
    assert registers[..] == WriteArgs(was, base, was[from..from + arity]);
  }

  /** The tables the machine reads from the markers: where functions start, and their parameters. */
  method ReadStarts(p: Program, functions: array<Info>) returns (count: nat)
    requires functions.Length == MAX_FUNCTIONS && 0 < |p.code| && p.minor >= CALL_MINOR && TableStatus(p) == Ok
    modifies functions
    ensures count == |Table(p)| <= MAX_FUNCTIONS
    ensures forall f | 0 <= f < count :: functions[f] == Table(p)[f].(returnTag := 0)
  {
    var status;
    status, count := ReadTable(p, functions);
  }

  /** What the machine holds, as a state. */
  ghost function Held(pc: nat, registers: array<Double>, frames: array<Frame>, depth: nat): State
    requires depth <= frames.Length
    reads registers, frames
  {
    State(pc, registers[..], frames[..depth])
  }

  /** Pushes a frame and enters the callee. */
  method ExecuteCall(
      fp: FloatModel, p: Program, maxDepth: nat, pc: nat, registers: array<Double>, frames: array<Frame>, depth: nat,
      functions: array<Info>, count: nat)
      returns (stop: Option<Halt>, pc': nat)
    requires pc < |p.code| && p.code[pc].op.Call? && depth <= maxDepth <= frames.Length
    requires count <= functions.Length && count == |Table(p)|
    requires forall f | 0 <= f < count :: functions[f] == Table(p)[f].(returnTag := 0)
    modifies registers, frames
    ensures frames[..depth] == old(frames[..depth])
    ensures stop.None? ==> depth < maxDepth
    ensures Step(fp, p, maxDepth, old(Held(pc, registers, frames, depth)))
         == if stop.Some? then Halted(stop.value) else Running(Held(pc', registers, frames, depth + 1))
  {
    var ins := p.code[pc];
    pc' := pc;
    if depth >= maxDepth { return Some(DepthExhausted), pc'; }
    var arity := fp.whole(ins.imm);
    if arity.None? || ins.b >= count || arity.value != functions[ins.b].arity
       || ins.c + arity.value > registers.Length || functions[ins.b].base + arity.value > registers.Length {
      return Some(BadCall), pc';
    }
    ghost var st := Held(pc, registers, frames, depth);
    CallResult(fp, p, maxDepth, st);
    assert st.regs[ins.c..ins.c + arity.value] == registers[ins.c..ins.c + arity.value];
    PushCall(registers, frames, depth, Frame(pc + 1, ins.a), ins.c, functions[ins.b].base, arity.value);
    stop, pc' := None, functions[ins.b].start;
  }

  /** The frame, and the arguments in the parameter registers. */
  method PushCall(
      registers: array<Double>, frames: array<Frame>, depth: nat, frame: Frame, from: nat, base: nat, arity: nat)
    requires depth < frames.Length && from + arity <= registers.Length && base + arity <= registers.Length
    modifies registers, frames
    ensures frames[..depth] == old(frames[..depth]) && frames[..depth + 1] == old(frames[..depth]) + [frame]
    ensures registers[..] == WriteArgs(old(registers[..]), base, old(registers[from..from + arity]))
  {
    ghost var was := registers[..];
    assert was[from..from + arity] == registers[from..from + arity];
    CopyArguments(registers, from, base, arity);
    frames[depth] := frame;
    assert frames[..depth + 1] == old(frames[..depth]) + [frame];
  }

  /** One turn of the loop. */
  method ExecuteOne(
      fp: FloatModel, p: Program, maxDepth: nat, pc: nat, registers: array<Double>, frames: array<Frame>, depth: nat,
      functions: array<Info>, count: nat)
      returns (stop: Option<Halt>, pc': nat, depth': nat)
    requires pc < |p.code| && depth <= maxDepth <= frames.Length
    requires count <= functions.Length && count == |Table(p)|
    requires forall f | 0 <= f < count :: functions[f] == Table(p)[f].(returnTag := 0)
    requires PlainOperands(p.code[pc], registers.Length) || !IsPlain(p.code[pc].op)
    requires p.code[pc].op.JumpIfFalse? || p.code[pc].op.Return? ==> p.code[pc].a < registers.Length
    requires p.code[pc].op.Return? && depth > 0 ==> frames[depth - 1].destination < registers.Length
    modifies registers, frames
    ensures depth' <= maxDepth
    ensures Step(fp, p, maxDepth, old(Held(pc, registers, frames, depth)))
         == if stop.Some? then Halted(stop.value) else Running(Held(pc', registers, frames, depth'))
  {
    var ins := p.code[pc];
    stop, pc', depth' := None, pc + 1, depth;
    match ins.op {
      case Jump => pc' := ins.a;
      case JumpIfFalse => pc' := if fp.isZero(registers[ins.a]) then ins.b else pc + 1;
      case Return =>
        var value := registers[ins.a];
        if depth == 0 { return Some(Finished(value)), pc', depth'; }
        depth' := depth - 1;
        registers[frames[depth'].destination] := value;
        pc' := frames[depth'].returnPc;
        assert frames[..depth'] == old(frames[..depth])[..depth - 1];
      case FunctionMark =>
      case Call =>
        stop, pc' := ExecuteCall(fp, p, maxDepth, pc, registers, frames, depth, functions, count);
        if stop.None? { depth' := depth + 1; }
      case Unknown(_) => stop := Some(NotExecutable);
      case _ => stop := ExecutePlain(fp, p, pc, registers, maxDepth, frames[..depth]);
    }
  }

  /** What the verifier has checked about the operands of the next instruction. */
  lemma {:induction false} OperandsReady(fp: FloatModel, p: Program, st: State, stack: seq<nat>)
    requires Good(fp, p) && Safe(fp, p, st, stack)
    ensures st.pc < |p.code| && |st.regs| == p.registerCount
    ensures PlainOperands(p.code[st.pc], |st.regs|) || !IsPlain(p.code[st.pc].op)
    ensures p.code[st.pc].op.JumpIfFalse? || p.code[st.pc].op.Return? ==> p.code[st.pc].a < |st.regs|
    ensures st.frames != [] && p.code[st.pc].op.Return? ==> st.frames[|st.frames| - 1].destination < |st.regs|
  {
    var n := |stack| - 1;
    InsideFlow(fp, p, stack[n], st.pc);
    if n > 0 && p.code[st.pc].op.Return? {
      assert FrameAt(p, stack, st.frames, n);
      ReturnFits(fp, p, stack[n - 1], stack[n], st.pc, st.frames[n - 1], st.regs);
    }
  }

  /** Runs an accepted program to its end or to the end of its budget. */
  method Loop(fp: FloatModel, p: Program, maxDepth: nat, maxSteps: nat, functions: array<Info>, count: nat)
      returns (r: RunResult)
    requires Good(fp, p) && maxDepth <= MAX_CALL_DEPTH
    requires count <= functions.Length && count == |Table(p)|
    requires forall f | 0 <= f < count :: functions[f] == Table(p)[f].(returnTag := 0)
    ensures r == Run(fp, p, maxDepth, maxSteps)
  {
    var registers := new Double[p.registerCount](_ => ZERO);
    var frames := new Frame[MAX_CALL_DEPTH](_ => Frame(0, 0));
    var pc: nat := functions[0].start;
    var depth: nat := 0;
    var steps: nat := 0;
    ghost var stack := [0];
    InitialSafe(fp, p);
    assert Held(pc, registers, frames, depth) == InitialState(p);
    while pc < |p.code|
      invariant depth <= maxDepth && steps <= maxSteps
      invariant Safe(fp, p, Held(pc, registers, frames, depth), stack)
      invariant RunFrom(fp, p, maxDepth, maxSteps, Held(pc, registers, frames, depth), steps) == Run(fp, p, maxDepth, maxSteps)
      invariant forall f | 0 <= f < count :: functions[f] == Table(p)[f].(returnTag := 0)
      decreases maxSteps - steps
    {
      if steps >= maxSteps { return StepLimit; }
      ghost var st := Held(pc, registers, frames, depth);
      OperandsReady(fp, p, st, stack);
      StepKeepsSafe(fp, p, maxDepth, st, stack);
      steps := steps + 1;
      var stop;
      stop, pc, depth := ExecuteOne(fp, p, maxDepth, pc, registers, frames, depth, functions, count);
      if stop.Some? { return Stopped(stop.value, steps); }
      stack := StackAfter(p, st, stack);
    }
    r := Stopped(LeftStream, steps);
  }

  /** Verify, then run: the machine computes its specification, and refuses what the verifier refuses. */
  method Execute(fp: FloatModel, p: Program, maxDepth: nat, maxSteps: nat) returns (e: Execution)
    requires fp.WellBehaved() && maxDepth <= MAX_CALL_DEPTH
    ensures e.Ran? <==> Signatures.WellMade(fp, p)
    ensures VerifyStatus(fp, p) != Ok ==> e == Rejected(VerifyStatus(fp, p))
    ensures VerifyStatus(fp, p) == Ok ==> |Table(p)| > 0 && e == Ran(Run(fp, p, maxDepth, maxSteps))
  {
    var status := Verify(fp, p);
    if status != Ok { return Rejected(status); }
    AcceptedIff(fp, p);
    var functions := new Info[MAX_FUNCTIONS](_ => Info(0, 0, 0, 0, 0));
    var count: nat := 1;
    if p.minor >= CALL_MINOR {
      count := ReadStarts(p, functions);
    } else {
      functions[0] := Info(0, |p.code|, 0, 0, 0);
    }
    var r := Loop(fp, p, maxDepth, maxSteps, functions, count);
    e := Ran(r);
  }
}
