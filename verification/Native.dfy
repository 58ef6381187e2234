/** The native backend: bytecode translated to C functions that call each other directly.  The generated
    program is modelled by its labelled blocks and their direct-style meaning; the C text that spells
    them is not part of the model. */
module Native {
  import opened Wrappers
  import opened Floats
  import opened Bytecode

  const NATIVE_STEP_LIMIT: nat := 1000000

  /** What a block does to the registers. */
  datatype Action =
    | Nothing
    | SetConstant(a: nat, value: Double)
    | SetRegister(a: nat, b: nat)
    | SetNegation(a: nat, b: nat)
    | SetArithmetic(arith: CalcOp, a: nat, b: nat, c: nat)
    | SetTest(test: TestOp, a: nat, b: nat, c: nat)
    | SetCall(a: nat, callee: nat, argBase: nat)

  /** How a block is left. */
  datatype Leave =
    | Goto(target: nat)
    | Choose(a: nat, ifZero: nat, otherwise: nat)
    | ChooseOrFail(a: nat, ifZero: nat)
    | Give(a: nat)
    | Fail

  /** A labelled piece of a C function: it counts a step, acts, and leaves.  A `Trap` only fails. */
  datatype Block = Block(action: Action, leave: Leave) | Trap

  datatype CFunction = CFunction(entry: nat, base: nat, arity: nat, blocks: map<nat, Block>)

  datatype CProgram = CProgram(registers: nat, functions: seq<CFunction>)

  // ----- translation -----

  /** The block for one instruction; control after it goes to `next`. */
  function TranslateWith(ins: Instruction, functions: nat, next: Leave): Option<Block> {
    match ins.op
    case ConstF64 => Some(Block(SetConstant(ins.a, ins.imm), next))
    case ConstBool => Some(Block(SetConstant(ins.a, ins.imm), next))
    case Move => Some(Block(SetRegister(ins.a, ins.b), next))
    case Neg => Some(Block(SetNegation(ins.a, ins.b), next))
    case Calc(op) => Some(Block(SetArithmetic(op, ins.a, ins.b, ins.c), next))
    case Test(op) => Some(Block(SetTest(op, ins.a, ins.b, ins.c), next))
    case Jump => Some(Block(Nothing, Goto(ins.a)))
    case JumpIfFalse =>
      Some(Block(Nothing, if next.Goto? then Choose(ins.a, ins.b, next.target) else ChooseOrFail(ins.a, ins.b)))
    case Return => Some(Block(Nothing, Give(ins.a)))
    case Call => if ins.b < functions then Some(Block(SetCall(ins.a, ins.b, ins.c), next)) else None
    case _ => None
  }

  /** In version 1.0 control may always be written as going on, into a trap behind the last instruction. */
  function Next(p: Program, pc: nat, end: nat): Leave {
    if p.minor < CALL_MINOR || pc + 1 < end then Goto(pc + 1) else Fail
  }

  function Translated(p: Program, functions: nat, pc: nat, end: nat): Option<Block>
    requires pc < |p.code|
  {
    TranslateWith(p.code[pc], if p.minor < CALL_MINOR then 0 else functions, Next(p, pc, end))
  }

  ghost predicate Translatable(p: Program, fns: seq<Info>, f: nat)
    requires f < |fns|
  {
    && fns[f].start <= fns[f].end <= |p.code|
    && forall pc: nat | fns[f].start <= pc < fns[f].end :: Translated(p, |fns|, pc, fns[f].end).Some?
  }

  ghost function BlocksOf(p: Program, fns: seq<Info>, f: nat): map<nat, Block>
    requires f < |fns| && Translatable(p, fns, f)
  {
    var info := fns[f];
    var code := map pc: nat | info.start <= pc < info.end :: Translated(p, |fns|, pc, info.end).value;
    if p.minor < CALL_MINOR then code[|p.code| := Trap] else code
  }

  ghost predicate AllTranslatable(p: Program) { forall f | 0 <= f < |Table(p)| :: Translatable(p, Table(p), f) }

  ghost function FunctionOf(p: Program, f: nat): CFunction
    requires f < |Table(p)| && AllTranslatable(p)
  {
    var info := Table(p)[f];
    CFunction(info.start, info.base, info.arity, BlocksOf(p, Table(p), f))
  }

  ghost function ProgramOf(p: Program): CProgram
    requires AllTranslatable(p)
  {
    CProgram(p.registerCount, seq(|Table(p)|, f requires 0 <= f < |Table(p)| && AllTranslatable(p) => FunctionOf(p, f)))
  }

  /** Every label a block leaves for is in its own function, so the generated C compiles. */
  predicate LabelsOk(prog: CProgram) {
    forall f, l | 0 <= f < |prog.functions| && l in prog.functions[f].blocks :: LeavesInside(prog.functions[f].blocks, l)
  }

  predicate LeavesInside(blocks: map<nat, Block>, l: nat)
    requires l in blocks
  {
    blocks[l].Block? ==>
      match blocks[l].leave
      case Goto(to) => to in blocks
      case Choose(_, x, y) => x in blocks && y in blocks
      case ChooseOrFail(_, x) => x in blocks
      case _ => true
  }

  // ----- meaning of the generated program -----

  /** What running C code from a label comes to.  `Undefined` stands for undefined behaviour: an access
      outside the register array, a label or a function that does not exist. */
  datatype NativeResult =
    | Gave(value: Double, regs: seq<Double>, steps: nat)
    | Exit70(steps: nat)
    | Exit71
    | Undefined

  datatype Effect = Registers(regs: seq<Double>) | Refused | OutOfArray

  /** Actions other than calls. */
  function Act(fp: FloatModel, action: Action, regs: seq<Double>): Effect {
    match action
    case Nothing => Registers(regs)
    case SetConstant(a, value) => if a < |regs| then Registers(regs[a := value]) else OutOfArray
    case SetRegister(a, b) => if a < |regs| && b < |regs| then Registers(regs[a := regs[b]]) else OutOfArray
    case SetNegation(a, b) =>
      if !(a < |regs| && b < |regs|) then OutOfArray
      else if !fp.finite(fp.neg(regs[b])) then Refused
      else Registers(regs[a := fp.neg(regs[b])])
    case SetArithmetic(op, a, b, c) =>
      if !(a < |regs| && b < |regs| && c < |regs|) then OutOfArray
      else if op == Divide && fp.isZero(regs[c]) then Refused
      else if !fp.finite(fp.arith(op, regs[b], regs[c])) then Refused
      else Registers(regs[a := fp.arith(op, regs[b], regs[c])])
    case SetTest(op, a, b, c) =>
      if a < |regs| && b < |regs| && c < |regs|
      then Registers(regs[a := if fp.test(op, regs[b], regs[c]) then ONE else ZERO]) else OutOfArray
    case SetCall(_, _, _) => OutOfArray
  }

  /** From a label of function f on, with `steps` steps counted so far. */
  function RunLabel(fp: FloatModel, prog: CProgram, limit: nat, f: nat, l: nat, regs: seq<Double>, steps: nat)
    : (r: NativeResult)
    requires steps <= limit
    ensures r.Gave? ==> steps < r.steps <= limit
    decreases limit - steps, 0
  {
    if f >= |prog.functions| || l !in prog.functions[f].blocks then Undefined
    else
      var b := prog.functions[f].blocks[l];
      if b.Trap? then Exit70(steps)
      else if steps >= limit then Exit71
      else if b.action.SetCall? then
        match RunFunction(fp, prog, limit, b.action.callee, b.action.argBase, regs, steps + 1)
        case Gave(v, regs', n) =>
          if b.action.a < |regs'| then RunLeave(fp, prog, limit, f, b.leave, regs'[b.action.a := v], n) else Undefined
        case Exit70(n) => Exit70(n)
        case Exit71 => Exit71
        case Undefined => Undefined
      else
        match Act(fp, b.action, regs)
        case Registers(regs') => RunLeave(fp, prog, limit, f, b.leave, regs', steps + 1)
        case Refused => Exit70(steps + 1)
        case OutOfArray => Undefined
  }

  /** A C function: copy the arguments, write the parameters, run the body. */
  function RunFunction(fp: FloatModel, prog: CProgram, limit: nat, f: nat, argBase: nat, regs: seq<Double>, steps: nat)
    : (r: NativeResult)
    requires steps <= limit
    ensures r.Gave? ==> steps < r.steps <= limit
    decreases limit - steps, 1
  {
    if f >= |prog.functions| then Undefined
    else
      var fn := prog.functions[f];
      if argBase + fn.arity > |regs| || fn.base + fn.arity > |regs| then Undefined
      else
        RunLabel(fp, prog, limit, f, fn.entry, WriteArgs(regs, fn.base, regs[argBase..argBase + fn.arity]), steps)
  }

  function RunLeave(fp: FloatModel, prog: CProgram, limit: nat, f: nat, leave: Leave, regs: seq<Double>, steps: nat)
    : (r: NativeResult)
    requires steps <= limit
    ensures r.Gave? ==> steps <= r.steps <= limit
    decreases limit - steps, 1
  {
    match leave
    case Goto(l) => RunLabel(fp, prog, limit, f, l, regs, steps)
    case Choose(a, x, y) =>
      if a >= |regs| then Undefined
      else RunLabel(fp, prog, limit, f, if fp.isZero(regs[a]) then x else y, regs, steps)
    case ChooseOrFail(a, x) =>
      if a >= |regs| then Undefined
      else if fp.isZero(regs[a]) then RunLabel(fp, prog, limit, f, x, regs, steps)
      else Exit70(steps)
    case Give(a) => if a < |regs| then Gave(regs[a], regs, steps) else Undefined
    case Fail => Exit70(steps)
  }

  /** The generated `main`. */
  function RunNative(fp: FloatModel, prog: CProgram, limit: nat): NativeResult {
    RunFunction(fp, prog, limit, 0, 0, Zeros(prog.registers), 0)
  }

  // ----- emission -----

  /** The emitter: one pass over the markers, then one over each body. */
  method EmitFunction(p: Program, functions: array<Info>, count: nat, f: nat) returns (ok: bool, fn: CFunction)
    requires f < count <= functions.Length && functions[f].start <= functions[f].end <= |p.code|
    ensures ok <==> Translatable(p, functions[..count], f)
    ensures ok ==> fn == CFunction(functions[f].start, functions[f].base, functions[f].arity, BlocksOf(p, functions[..count], f))
  {
    ghost var fns := functions[..count];
    var info := functions[f];
    var blocks: map<nat, Block> := map[];
    ok, fn := false, CFunction(info.start, info.base, info.arity, blocks);
    for pc := info.start to info.end
      invariant forall k | info.start <= k < pc :: Translated(p, count, k, info.end).Some?
      invariant blocks == map k: nat | info.start <= k < pc :: Translated(p, count, k, info.end).value
    {
      var block := Translated(p, count, pc, info.end);
      if block.None? {
        assert !Translatable(p, fns, f);
        return;
      }
      blocks := blocks[pc := block.value];
    }
    if p.minor < CALL_MINOR { blocks := blocks[|p.code| := Trap]; }
    assert Translatable(p, fns, f);
    assert blocks == BlocksOf(p, fns, f);
    ok, fn := true, CFunction(info.start, info.base, info.arity, blocks);
  }

  method Emit(p: Program, functions: array<Info>, count: nat) returns (ok: bool, prog: CProgram)
    requires count <= functions.Length && count == |Table(p)|
    requires forall f | 0 <= f < count :: functions[f] == Table(p)[f] && functions[f].start <= functions[f].end <= |p.code|
    ensures ok <==> AllTranslatable(p)
    ensures ok ==> prog == ProgramOf(p)
  {
    var emitted: seq<CFunction> := [];
    prog := CProgram(p.registerCount, emitted);
    assert functions[..count] == Table(p);
    for f := 0 to count
      invariant forall h | 0 <= h < f :: Translatable(p, Table(p), h)
      invariant |emitted| == f
      invariant forall h | 0 <= h < f ::
                  emitted[h] == CFunction(Table(p)[h].start, Table(p)[h].base, Table(p)[h].arity, BlocksOf(p, Table(p), h))
    {
      var fn;
      ok, fn := EmitFunction(p, functions, count, f);
      if !ok {
        assert !AllTranslatable(p);
        return;
      }
      emitted := emitted + [fn];
    }
    ok, prog := true, CProgram(p.registerCount, emitted);
    assert emitted == ProgramOf(p).functions;
  }
}
