/** Register bytecode, its function table and the reference meaning of one machine step. */
module Bytecode {
  import opened Wrappers
  import opened Floats

  const MAX_INSTRUCTIONS: nat := 65536
  const MAX_REGISTERS: nat := 256
  const MAX_FUNCTIONS: nat := 64
  const MAX_CALL_DEPTH: nat := 64
  const DEFAULT_STEP_LIMIT: nat := 1000000
  const MAX_STEP_LIMIT: nat := 10000000
  const UINT32_MAX: nat := 0xFFFF_FFFF

  const CALL_MINOR: nat := 1
  const TYPED_MINOR: nat := 2

  const NUMBER_TAG: nat := 1
  const BOOLEAN_TAG: nat := 2

  predicate IsTag(t: nat) { t == NUMBER_TAG || t == BOOLEAN_TAG }

  datatype Opcode =
    | ConstF64 | ConstBool | Move | Neg
    | Calc(arith: CalcOp) | Test(test: TestOp)
    | Jump | JumpIfFalse | Return
    | FunctionMark | Call
    | Unknown(byte: nat)

  datatype Instruction = Instruction(op: Opcode, a: nat, b: nat, c: nat, imm: Double)

  /** What the encoder is given and the decoder reads back.  The two type tables are present in
      version 1.2 only. */
  datatype Program = Program(
    minor: nat,
    registerCount: nat,
    code: seq<Instruction>,
    registerTypes: seq<nat>,
    returnTypes: seq<nat>)

  // ----- the function table -----

  datatype Info = Info(start: nat, end: nat, base: nat, arity: nat, returnTag: nat)

  /** The positions of the FUNCTION instructions from `from` on, in order. */
  function Markers(code: seq<Instruction>, from: nat): seq<nat>
    decreases |code| - from
  {
    if from >= |code| then []
    else if code[from].op.FunctionMark? then [from] + Markers(code, from + 1)
    else Markers(code, from + 1)
  }

  predicate Ascending(s: seq<nat>) { forall i, j | 0 <= i < j < |s| :: s[i] < s[j] }

  /** `ms` is exactly the markers at or after `from`, in order. */
  ghost predicate IsMarkers(code: seq<Instruction>, from: nat, ms: seq<nat>) {
    && Ascending(ms)
    && (forall x :: x in ms <==> from <= x < |code| && code[x].op.FunctionMark?)
  }

  lemma {:induction false} MarkersCorrect(code: seq<Instruction>, from: nat)
    ensures IsMarkers(code, from, Markers(code, from))
    decreases |code| - from
  {
    if from < |code| {
      MarkersCorrect(code, from + 1);
      var rest := Markers(code, from + 1);
      if code[from].op.FunctionMark? {
        var ms := [from] + rest;
        assert forall i | 0 <= i < |rest| :: rest[i] in rest;
        assert Ascending(ms);
        assert forall x :: x in ms <==> x == from || x in rest;
      }
    }
  }

  /** Ascending sequences with the same elements are equal. */
  lemma {:induction false} AscendingUnique(s: seq<nat>, t: seq<nat>)
    requires Ascending(s) && Ascending(t)
    requires forall x :: x in s <==> x in t
    ensures s == t
    decreases |s|
  {
    assert |t| > 0 ==> t[0] in t;
    if s != [] {
      assert s[0] in t;
      assert t[0] in s;
      assert s[0] == t[0];
      forall x
        ensures x in s[1..] <==> x in t[1..]
      {
        assert x in s[1..] <==> x in s && x != s[0];
        assert x in t[1..] <==> x in t && x != t[0];
      }
      AscendingUnique(s[1..], t[1..]);
    }
  }

  function InfoAt(p: Program, ms: seq<nat>, i: nat): Info
    requires i < |ms| && forall j | 0 <= j < |ms| :: ms[j] < |p.code|
  {
    Info(ms[i] + 1,
         if i + 1 < |ms| then ms[i + 1] else |p.code|,
         p.code[ms[i]].b, p.code[ms[i]].c,
         if p.minor == TYPED_MINOR && i < |p.returnTypes| then p.returnTypes[i] else 0)
  }

  /** Version 1.0 has no markers: the whole stream is one function. */
  function Table(p: Program): seq<Info> {
    if p.minor < CALL_MINOR then [Info(0, |p.code|, 0, 0, 0)]
    else
      var ms := Markers(p.code, 0);
      MarkersCorrect(p.code, 0);
      assert forall j | 0 <= j < |ms| :: ms[j] in ms;
      seq(|ms|, i requires 0 <= i < |ms| => InfoAt(p, ms, i))
  }

  /** Function f owns its marker and its body. */
  predicate Owns(fns: seq<Info>, f: nat, pc: nat) {
    f < |fns| && fns[f].start <= pc + 1 && pc < fns[f].end
  }

  // ----- machine states -----

  datatype Frame = Frame(returnPc: nat, destination: nat)

  datatype State = State(pc: nat, regs: seq<Double>, frames: seq<Frame>)

  /** Every way a run can stop.  `OutOfBounds` is a register access outside the register file, which
      the C program would not notice. */
  datatype Halt =
    | Finished(value: Double)
    | DivisionByZero
    | NonFinite
    | DepthExhausted
    | BadCall
    | LeftStream
    | NotExecutable
    | OutOfBounds

  datatype Outcome = Running(state: State) | Halted(halt: Halt)

  /** A division by zero or a result outside the finite numbers. */
  predicate IsFault(h: Halt) { h.DivisionByZero? || h.NonFinite? }

  /** The result of an arithmetic instruction, or why there is none. */
  function CalcResult(fp: FloatModel, op: CalcOp, x: Double, y: Double): (Option<Double>, Halt) {
    if op == Divide && fp.isZero(y) then (None, DivisionByZero)
    else if !fp.finite(fp.arith(op, x, y)) then (None, NonFinite)
    else (Some(fp.arith(op, x, y)), NonFinite)
  }

  function Truth(b: bool): Double { if b then ONE else ZERO }

  /** `regs` with the values `args` written from `base` on. */
  function WriteArgs(regs: seq<Double>, base: nat, args: seq<Double>): (r: seq<Double>)
    requires base + |args| <= |regs|
    ensures |r| == |regs|
    ensures forall i | 0 <= i < |regs| :: r[i] == if base <= i < base + |args| then args[i - base] else regs[i]
  {
    regs[..base] + args + regs[base + |args|..]
  }

  /** What CALL checks about its target at run time. */
  predicate CallFits(fns: seq<Info>, registers: nat, b: nat, c: nat, arity: nat) {
    && b < |fns| && arity == fns[b].arity
    && c + arity <= registers && fns[b].base + arity <= registers
  }

  function Step(fp: FloatModel, p: Program, maxDepth: nat, st: State): Outcome {
    var regs := st.regs;
    if st.pc >= |p.code| then Halted(LeftStream)
    else
      var ins := p.code[st.pc];
      match ins.op
      case ConstF64 => if ins.a < |regs| then Put(st, ins.a, ins.imm) else Halted(OutOfBounds)
      case ConstBool => if ins.a < |regs| then Put(st, ins.a, ins.imm) else Halted(OutOfBounds)
      case Move =>
        if ins.a < |regs| && ins.b < |regs| then Put(st, ins.a, regs[ins.b]) else Halted(OutOfBounds)
      case Neg =>
        if !(ins.a < |regs| && ins.b < |regs|) then Halted(OutOfBounds)
        else if !fp.finite(fp.neg(regs[ins.b])) then Halted(NonFinite)
        else Put(st, ins.a, fp.neg(regs[ins.b]))
      case Calc(op) =>
        if !(ins.a < |regs| && ins.b < |regs| && ins.c < |regs|) then Halted(OutOfBounds)
        else
          var (value, why) := CalcResult(fp, op, regs[ins.b], regs[ins.c]);
          if value.None? then Halted(why) else Put(st, ins.a, value.value)
      case Test(op) =>
        if !(ins.a < |regs| && ins.b < |regs| && ins.c < |regs|) then Halted(OutOfBounds)
        else Put(st, ins.a, Truth(fp.test(op, regs[ins.b], regs[ins.c])))
      case Jump => Running(st.(pc := ins.a))
      case JumpIfFalse =>
        if ins.a >= |regs| then Halted(OutOfBounds)
        else Running(st.(pc := if fp.isZero(regs[ins.a]) then ins.b else st.pc + 1))
      case Return =>
        if ins.a >= |regs| then Halted(OutOfBounds)
        else if st.frames == [] then Halted(Finished(regs[ins.a]))
        else
          var top := st.frames[|st.frames| - 1];
          if top.destination >= |regs| then Halted(OutOfBounds)
          else Running(State(top.returnPc, regs[top.destination := regs[ins.a]], st.frames[..|st.frames| - 1]))
      case FunctionMark => Running(st.(pc := st.pc + 1))
      case Call =>
        var fns := Table(p);
        var arity := fp.whole(ins.imm);
        if |st.frames| >= maxDepth then Halted(DepthExhausted)
        else if arity.None? || !CallFits(fns, |regs|, ins.b, ins.c, arity.value) then Halted(BadCall)
        else
          Running(State(fns[ins.b].start,
                        WriteArgs(regs, fns[ins.b].base, regs[ins.c..ins.c + arity.value]),
                        st.frames + [Frame(st.pc + 1, ins.a)]))
      case Unknown(_) => Halted(NotExecutable)
  }

  /** Write one register and go on to the next instruction. */
  function Put(st: State, r: nat, value: Double): Outcome
    requires r < |st.regs|
  {
    Running(st.(pc := st.pc + 1, regs := st.regs[r := value]))
  }

  // ----- runs -----

  /** The state n steps on, if the machine gets that far. */
  function StepsTo(fp: FloatModel, p: Program, maxDepth: nat, st: State, n: nat): Option<State>
    decreases n
  {
    if n == 0 then Some(st)
    else
      match Step(fp, p, maxDepth, st)
      case Running(next) => StepsTo(fp, p, maxDepth, next, n - 1)
      case Halted(_) => None
  }

  datatype RunResult = Stopped(halt: Halt, steps: nat) | StepLimit

  /** The fetch-execute loop with its budget: the test against the limit comes before each step. */
  function RunFrom(fp: FloatModel, p: Program, maxDepth: nat, maxSteps: nat, st: State, steps: nat): RunResult
    decreases maxSteps - steps
  {
    if st.pc >= |p.code| then Stopped(LeftStream, steps)
    else if steps >= maxSteps then StepLimit
    else
      match Step(fp, p, maxDepth, st)
      case Running(next) => RunFrom(fp, p, maxDepth, maxSteps, next, steps + 1)
      case Halted(h) => Stopped(h, steps + 1)
  }

  function Zeros(n: nat): seq<Double> { seq(n, _ => ZERO) }

  /** Entry: the first instruction of function zero, all registers zero, no frames. */
  function InitialState(p: Program): State
    requires |Table(p)| > 0
  {
    State(Table(p)[0].start, Zeros(p.registerCount), [])
  }

  function Run(fp: FloatModel, p: Program, maxDepth: nat, maxSteps: nat): RunResult
    requires |Table(p)| > 0
  {
    RunFrom(fp, p, maxDepth, maxSteps, InitialState(p), 0)
  }

  lemma {:induction false} StepsCompose(
      fp: FloatModel, p: Program, maxDepth: nat, st: State, m: nat, mid: State, n: nat, last: State)
    requires StepsTo(fp, p, maxDepth, st, m) == Some(mid)
    requires StepsTo(fp, p, maxDepth, mid, n) == Some(last)
    ensures StepsTo(fp, p, maxDepth, st, m + n) == Some(last)
    decreases m
  {
    if m > 0 {
      var next := Step(fp, p, maxDepth, st).state;
      StepsCompose(fp, p, maxDepth, next, m - 1, mid, n, last);
    }
  }

  /** A run that has n more steps ahead of it either runs out of fuel on the way or arrives. */
  lemma {:induction false} RunAlong(
      fp: FloatModel, p: Program, maxDepth: nat, maxSteps: nat, st: State, steps: nat, n: nat, last: State)
    requires StepsTo(fp, p, maxDepth, st, n) == Some(last)
    requires last.pc < |p.code| && steps <= maxSteps
    ensures RunFrom(fp, p, maxDepth, maxSteps, st, steps)
         == if steps + n <= maxSteps then RunFrom(fp, p, maxDepth, maxSteps, last, steps + n) else StepLimit
    decreases n
  {
    if n > 0 {
      var out := Step(fp, p, maxDepth, st);
      if steps < maxSteps {
        RunAlong(fp, p, maxDepth, maxSteps, out.state, steps + 1, n - 1, last);
      }
    }
  }
}
