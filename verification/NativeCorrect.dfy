/** The machine with explicit frames and the generated program with direct calls agree. */
module NativeCorrect {
  import opened Wrappers
  import opened Floats
  import opened Bytecode
  import opened CallGraph
  import opened Verifier
  import opened Verification
  import opened Safety
  import opened Native

  // ----- the backend translates every accepted program -----

  lemma {:induction false} BodyTranslates(fp: FloatModel, p: Program, f: nat, pc: nat)
    requires Accepted(fp, p) && f < |Table(p)| && Table(p)[f].start <= pc < Table(p)[f].end
    ensures pc < |p.code| && OwnerOf(Table(p), pc) == f && Translated(p, |Table(p)|, pc, Table(p)[f].end).Some?
  {
    OwnerIs(p, Table(p), f, pc);
    AcceptedAt(fp, p, pc);
    NoMarkInside(fp, p, f, pc);
  }

  lemma {:induction false} NoMarkInside(fp: FloatModel, p: Program, f: nat, pc: nat)
    requires Accepted(fp, p) && f < |Table(p)| && Table(p)[f].start <= pc < Table(p)[f].end && pc < |p.code|
    ensures !p.code[pc].op.FunctionMark?
  {
    AcceptedAt(fp, p, pc);
    OwnerIs(p, Table(p), f, pc);
    if p.code[pc].op.FunctionMark? && p.code[pc].a < |Table(p)| { OwnerIs(p, Table(p), p.code[pc].a, pc); }
  }

  lemma {:induction false} AcceptedTranslates(fp: FloatModel, p: Program)
    requires Accepted(fp, p)
    ensures AllTranslatable(p)
  {
    forall f | 0 <= f < |Table(p)|
      ensures Translatable(p, Table(p), f)
    {
      forall pc: nat | Table(p)[f].start <= pc < Table(p)[f].end
        ensures Translated(p, |Table(p)|, pc, Table(p)[f].end).Some?
      {
        BodyTranslates(fp, p, f, pc);
      }
    }
  }

  /** What a translation of p has to be: block by block the translation of each instruction. */
  ghost predicate Image(p: Program, prog: CProgram) {
    && |prog.functions| == |Table(p)| && prog.registers == p.registerCount
    && (forall f | 0 <= f < |Table(p)| :: HeadOk(p, prog, f))
    && (forall f: nat, pc: nat :: BlockOk(p, prog, f, pc))
    && (forall f: nat, l: nat :: KeyOk(p, prog, f, l))
  }

  ghost predicate HeadOk(p: Program, prog: CProgram, f: nat) {
    && f < |Table(p)| && f < |prog.functions|
    && prog.functions[f].entry == Table(p)[f].start
    && prog.functions[f].base == Table(p)[f].base && prog.functions[f].arity == Table(p)[f].arity
  }

  ghost predicate BlockOk(p: Program, prog: CProgram, f: nat, pc: nat) {
    f < |Table(p)| && f < |prog.functions| && Table(p)[f].start <= pc < Table(p)[f].end ==>
      && pc < |p.code| && pc in prog.functions[f].blocks
      && Translated(p, |Table(p)|, pc, Table(p)[f].end) == Some(prog.functions[f].blocks[pc])
  }

  /** No other labels, except for the trap of version 1.0. */
  ghost predicate KeyOk(p: Program, prog: CProgram, f: nat, l: nat) {
    f < |Table(p)| && f < |prog.functions| ==>
      && (l in prog.functions[f].blocks ==>
            Table(p)[f].start <= l < Table(p)[f].end || (p.minor < CALL_MINOR && l == |p.code|))
      && (p.minor < CALL_MINOR && l == |p.code| ==> l in prog.functions[f].blocks && prog.functions[f].blocks[l] == Trap)
  }

  lemma {:induction false} ProgramIsImage(fp: FloatModel, p: Program)
    requires Accepted(fp, p) && AllTranslatable(p)
    ensures Image(p, ProgramOf(p))
  {
    var prog := ProgramOf(p);
    forall f: nat, pc: nat
      ensures BlockOk(p, prog, f, pc) && KeyOk(p, prog, f, pc)
    {
      if f < |Table(p)| {
        assert Translatable(p, Table(p), f);
        assert Table(p)[f].end <= |p.code|;
      }
    }
    forall f | 0 <= f < |Table(p)|
      ensures HeadOk(p, prog, f)
    {
    }
  }

  /** Branch targets are in the function of the branch, even where the code cannot be reached. */
  lemma {:induction false} TargetInside(fp: FloatModel, p: Program, f: nat, pc: nat, target: nat)
    requires Accepted(fp, p) && f < |Table(p)| && Table(p)[f].start <= pc < Table(p)[f].end
    requires pc < |p.code|
    requires (p.code[pc].op.Jump? && target == p.code[pc].a) || (p.code[pc].op.JumpIfFalse? && target == p.code[pc].b)
    ensures Table(p)[f].start <= target < Table(p)[f].end
  {
    var fns := Table(p);
    AcceptedAt(fp, p, pc);
    OwnerIs(p, fns, f, pc);
    OwnerIs(p, fns, f, target);
    assert StartsAt(fns, fns[f].start);
  }

  /** The generated C has every label it jumps to. */
  lemma {:induction false} GeneratedLabelsOk(fp: FloatModel, p: Program, prog: CProgram)
    requires Accepted(fp, p) && Image(p, prog)
    ensures LabelsOk(prog)
  {
    forall f, l | 0 <= f < |prog.functions| && l in prog.functions[f].blocks
      ensures LeavesInside(prog.functions[f].blocks, l)
    {
      LabelsInside(fp, p, prog, f, l);
    }
  }

  lemma {:induction false} LabelsInside(fp: FloatModel, p: Program, prog: CProgram, f: nat, l: nat)
    requires Accepted(fp, p) && Image(p, prog) && f < |Table(p)| && l in prog.functions[f].blocks
    ensures LeavesInside(prog.functions[f].blocks, l)
  {
    var info := Table(p)[f];
    assert KeyOk(p, prog, f, l);
    if info.start <= l < info.end {
      assert BlockOk(p, prog, f, l);
      if p.code[l].op.Jump? { TargetLabelled(fp, p, prog, f, l, p.code[l].a); }
      if p.code[l].op.JumpIfFalse? { TargetLabelled(fp, p, prog, f, l, p.code[l].b); }
      NextLabelled(p, prog, f, l);
      TranslationInside(p.code[l], if p.minor < CALL_MINOR then 0 else |Table(p)|, Next(p, l, info.end), prog.functions[f].blocks, l);
    }
  }

  lemma {:induction false} TargetLabelled(fp: FloatModel, p: Program, prog: CProgram, f: nat, pc: nat, target: nat)
    requires Accepted(fp, p) && Image(p, prog) && f < |Table(p)| && Table(p)[f].start <= pc < Table(p)[f].end
    requires pc < |p.code|
    requires (p.code[pc].op.Jump? && target == p.code[pc].a) || (p.code[pc].op.JumpIfFalse? && target == p.code[pc].b)
    ensures target in prog.functions[f].blocks
  {
    TargetInside(fp, p, f, pc, target);
    assert BlockOk(p, prog, f, target);
  }

  /** Where control goes on to has a label: the next instruction, or the trap. */
  lemma {:induction false} NextLabelled(p: Program, prog: CProgram, f: nat, pc: nat)
    requires Tiled(p, Table(p)) && Image(p, prog) && f < |Table(p)| && Table(p)[f].start <= pc < Table(p)[f].end
    ensures Next(p, pc, Table(p)[f].end).Goto? ==> Next(p, pc, Table(p)[f].end).target in prog.functions[f].blocks
  {
    assert BlockOk(p, prog, f, pc + 1) && KeyOk(p, prog, f, |p.code|);
    assert p.minor < CALL_MINOR ==> Table(p)[f].end == |p.code|;
  }

  lemma {:induction false} TranslationInside(ins: Instruction, functions: nat, next: Leave, blocks: map<nat, Block>, l: nat)
    requires l in blocks && TranslateWith(ins, functions, next) == Some(blocks[l])
    requires ins.op.Jump? ==> ins.a in blocks
    requires ins.op.JumpIfFalse? ==> ins.b in blocks
    requires next.Fail? || (next.Goto? && next.target in blocks)
    ensures LeavesInside(blocks, l)
  {
  }

  // ----- one instruction -----

  /** Mentioned where what `Setting` says matters; elsewhere it is only handed on. */
  ghost predicate Spelled(k: nat) { true }

  /** The setting: an accepted program, its translation, room for every frame. */
  ghost predicate Setting(fp: FloatModel, p: Program, prog: CProgram, maxDepth: nat) {
    forall k: nat {:trigger Spelled(k)} | k == 0 && Spelled(k) ::
      Good(fp, p) && Image(p, prog) && |Table(p)| <= maxDepth + 1
  }

  lemma {:induction false} SettingSays(fp: FloatModel, p: Program, prog: CProgram, maxDepth: nat)
    requires Setting(fp, p, prog, maxDepth)
    ensures Good(fp, p) && Image(p, prog) && |Table(p)| <= maxDepth + 1
  {
    assert Spelled(0);
  }

  lemma {:induction false} GoodSetting(fp: FloatModel, p: Program, prog: CProgram, maxDepth: nat)
    requires Setting(fp, p, prog, maxDepth)
    ensures Good(fp, p)
  {
    SettingSays(fp, p, prog, maxDepth);
  }

  lemma {:induction false} NotBeforeStart(p: Program, f: nat, pc: nat)
    requires Tiled(p, Table(p)) && f < |Table(p)| && pc < |p.code| && !p.code[pc].op.FunctionMark?
    ensures pc + 1 != Table(p)[f].start
  {
    if p.minor >= CALL_MINOR {
      assert !StartsAt(Table(p), pc + 1);
    } else if f > 0 {
      EndsBefore(p, Table(p), 0, f);
    }
  }

  /** The active position has a block, and it is the translation of its instruction. */
  lemma {:induction false} ActiveBlock(fp: FloatModel, p: Program, prog: CProgram, st: State, stack: seq<nat>) returns (block: Block)
    requires Good(fp, p) && Image(p, prog) && Safe(fp, p, st, stack)
    ensures var f := stack[|stack| - 1];
            && f < |prog.functions| && st.pc < |p.code| && st.pc in prog.functions[f].blocks
            && block == prog.functions[f].blocks[st.pc]
    ensures TranslatedTo(p.code[st.pc], st.pc, block)
  {
    var f := stack[|stack| - 1];
    InsideFlow(fp, p, f, st.pc);
    OwnerIs(p, Table(p), f, st.pc);
    NotBeforeStart(p, f, st.pc);
    assert BlockOk(p, prog, f, st.pc);
    block := prog.functions[f].blocks[st.pc];
    GoesOn(p.code[st.pc], if p.minor < CALL_MINOR then 0 else |Table(p)|, st.pc, Next(p, st.pc, Table(p)[f].end), block);
  }

  lemma {:induction false} GoesOn(ins: Instruction, functions: nat, pc: nat, next: Leave, block: Block)
    requires TranslateWith(ins, functions, next) == Some(block)
    requires ins.op.Jump? || ins.op.Return? || next == Goto(pc + 1)
    ensures TranslatedTo(ins, pc, block)
  {
  }

  /** The block of an instruction that control can go on from. */
  predicate TranslatedTo(ins: Instruction, pc: nat, block: Block) {
    if ins.op.Return? then block == Block(Nothing, Give(ins.a))
    else if ins.op.Jump? then block == Block(Nothing, Goto(ins.a))
    else if ins.op.JumpIfFalse? then block == Block(Nothing, Choose(ins.a, ins.b, pc + 1))
    else if ins.op.Call? then block == Block(SetCall(ins.a, ins.b, ins.c), Goto(pc + 1))
    else block.Block? && block.leave == Goto(pc + 1) && TranslateWith(ins, 0, Goto(pc + 1)) == Some(block)
  }

  /** Instructions within a function act alike. */
  lemma {:induction false} ActAgrees(fp: FloatModel, p: Program, maxDepth: nat, st: State, block: Block)
    requires st.pc < |p.code| && IsPlain(p.code[st.pc].op) && TranslatedTo(p.code[st.pc], st.pc, block)
    ensures !block.action.SetCall?
    ensures match Step(fp, p, maxDepth, st)
            case Running(next) =>
              Act(fp, block.action, st.regs) == Registers(next.regs) && next.pc == st.pc + 1 && next.frames == st.frames
            case Halted(h) => if IsFault(h) then Act(fp, block.action, st.regs) == Refused else h == OutOfBounds
  {
  }

  // ----- runs of the machine and of the generated code, as relations -----

  /** Both states lead to the same end. */
  ghost predicate SameRun(
      fp: FloatModel, p: Program, maxDepth: nat, limit: nat, st: State, steps: nat, st': State, steps': nat)
  {
    forall k: nat {:trigger Spelled(k)} | k == 1 && Spelled(k) ::
      RunFrom(fp, p, maxDepth, limit, st, steps) == RunFrom(fp, p, maxDepth, limit, st', steps')
  }

  ghost predicate RunsTo(
      fp: FloatModel, p: Program, maxDepth: nat, limit: nat, st: State, steps: nat, result: RunResult)
  {
    forall k: nat {:trigger Spelled(k)} | k == 1 && Spelled(k) ::
      RunFrom(fp, p, maxDepth, limit, st, steps) == result
  }

  ghost predicate Comes(
      fp: FloatModel, prog: CProgram, limit: nat, f: nat, l: nat, regs: seq<Double>, steps: nat, r: NativeResult)
  {
    steps <= limit &&
    forall k: nat {:trigger Spelled(k)} | k == 2 && Spelled(k) :: RunLabel(fp, prog, limit, f, l, regs, steps) == r
  }

  lemma {:induction false} SameRunStep(
      fp: FloatModel, p: Program, maxDepth: nat, limit: nat, st: State, next: State, steps: nat)
    requires steps < limit && st.pc < |p.code| && Step(fp, p, maxDepth, st) == Running(next)
    ensures SameRun(fp, p, maxDepth, limit, st, steps, next, steps + 1)
  {
  }

  lemma {:induction false} SameRunTrans(
      fp: FloatModel, p: Program, maxDepth: nat, limit: nat, a: State, i: nat, b: State, j: nat, c: State, k: nat)
    requires SameRun(fp, p, maxDepth, limit, a, i, b, j) && SameRun(fp, p, maxDepth, limit, b, j, c, k)
    ensures SameRun(fp, p, maxDepth, limit, a, i, c, k)
  {
    assert Spelled(1);
  }

  lemma {:induction false} RunsToAfter(
      fp: FloatModel, p: Program, maxDepth: nat, limit: nat, a: State, i: nat, b: State, j: nat, result: RunResult)
    requires SameRun(fp, p, maxDepth, limit, a, i, b, j) && RunsTo(fp, p, maxDepth, limit, b, j, result)
    ensures RunsTo(fp, p, maxDepth, limit, a, i, result)
  {
    assert Spelled(1);
  }

  /** The machine stops here. */
  lemma {:induction false} RunsToHere(fp: FloatModel, p: Program, maxDepth: nat, limit: nat, st: State, steps: nat)
    requires st.pc < |p.code| && (steps < limit ==> Step(fp, p, maxDepth, st).Halted?)
    ensures RunsTo(fp, p, maxDepth, limit, st, steps,
                   if steps < limit then Stopped(Step(fp, p, maxDepth, st).halt, steps + 1) else StepLimit)
  {
  }

  // ----- agreement -----

  /** Where the two executions stand when the generated code has come to an end. */
  ghost predicate Agreed(
      fp: FloatModel, p: Program, maxDepth: nat, limit: nat, r: NativeResult, st: State, stack: seq<nat>, steps: nat, last: State)
  {
    match r
    case Gave(v, regs, n) =>
      && steps < n <= limit && Giving(fp, p, last, stack, v, regs) && last.frames == st.frames
      && SameRun(fp, p, maxDepth, limit, st, steps, last, n - 1)
    case Exit70(n) =>
      || RunsTo(fp, p, maxDepth, limit, st, steps, Stopped(DivisionByZero, n))
      || RunsTo(fp, p, maxDepth, limit, st, steps, Stopped(NonFinite, n))
    case Exit71 => RunsTo(fp, p, maxDepth, limit, st, steps, StepLimit)
    case Undefined => false
  }

  /** The machine is about to return v. */
  ghost predicate Giving(fp: FloatModel, p: Program, last: State, stack: seq<nat>, v: Double, regs: seq<Double>) {
    && Safe(fp, p, last, stack) && last.regs == regs
    && last.pc < |p.code| && p.code[last.pc].op.Return? && p.code[last.pc].a < |regs| && regs[p.code[last.pc].a] == v
  }

  /** Some steps of the machine, then agreement. */
  lemma {:induction false} AgreedLater(
      fp: FloatModel, p: Program, maxDepth: nat, limit: nat, r: NativeResult, st: State, next: State, stack: seq<nat>,
      steps: nat, steps': nat, last: State)
    requires Agreed(fp, p, maxDepth, limit, r, next, stack, steps', last) && next.frames == st.frames && steps <= steps'
    requires SameRun(fp, p, maxDepth, limit, st, steps, next, steps')
    ensures Agreed(fp, p, maxDepth, limit, r, st, stack, steps, last)
  {
    match r
    case Gave(v, regs, n) => SameRunTrans(fp, p, maxDepth, limit, st, steps, next, steps', last, n - 1);
    case Exit70(n) =>
      if RunsTo(fp, p, maxDepth, limit, next, steps', Stopped(DivisionByZero, n)) {
        RunsToAfter(fp, p, maxDepth, limit, st, steps, next, steps', Stopped(DivisionByZero, n));
      } else {
        RunsToAfter(fp, p, maxDepth, limit, st, steps, next, steps', Stopped(NonFinite, n));
      }
    case Exit71 => RunsToAfter(fp, p, maxDepth, limit, st, steps, next, steps', StepLimit);
  }

  /** The block at the active position. */
  ghost predicate HasBlock(p: Program, prog: CProgram, st: State, stack: seq<nat>, block: Block) {
    && stack != [] && stack[|stack| - 1] < |prog.functions|
    && st.pc < |p.code| && TranslatedTo(p.code[st.pc], st.pc, block)
    && st.pc in prog.functions[stack[|stack| - 1]].blocks
    && prog.functions[stack[|stack| - 1]].blocks[st.pc] == block
  }

  /** What the setting says about the next instruction. */
  lemma {:induction false} NextInstruction(
      fp: FloatModel, p: Program, prog: CProgram, maxDepth: nat, st: State, stack: seq<nat>) returns (block: Block)
    requires Setting(fp, p, prog, maxDepth) && Safe(fp, p, st, stack)
    ensures HasBlock(p, prog, st, stack, block)
    ensures p.code[st.pc].op.Return? ==> p.code[st.pc].a < |st.regs|
    ensures IsPlain(p.code[st.pc].op) || p.code[st.pc].op.Jump? || p.code[st.pc].op.JumpIfFalse?
         || p.code[st.pc].op.Call? || p.code[st.pc].op.Return?
    ensures StepSafe(fp, p, maxDepth, Step(fp, p, maxDepth, st), StackAfter(p, st, stack))
  {
    SettingSays(fp, p, prog, maxDepth);
    block := ActiveBlock(fp, p, prog, st, stack);
    StepKeepsSafe(fp, p, maxDepth, st, stack);
    InsideFlow(fp, p, stack[|stack| - 1], st.pc);
  }

  /** The two executions agree from every safe state on. */
  lemma {:induction false} Agree(
      fp: FloatModel, p: Program, prog: CProgram, maxDepth: nat, limit: nat, st: State, stack: seq<nat>, steps: nat)
      returns (r: NativeResult, last: State)
    requires Setting(fp, p, prog, maxDepth) && Safe(fp, p, st, stack) && steps <= limit
    ensures Comes(fp, prog, limit, stack[|stack| - 1], st.pc, st.regs, steps, r)
    ensures Agreed(fp, p, maxDepth, limit, r, st, stack, steps, last)
    decreases limit - steps, 2
  {
    var block := NextInstruction(fp, p, prog, maxDepth, st, stack);
    var op := p.code[st.pc].op;
    if steps == limit || op.Return? { r, last := AgreeHere(fp, p, prog, maxDepth, limit, st, stack, steps, block); }
    else if op.Call? { r, last := AgreeCall(fp, p, prog, maxDepth, limit, st, stack, steps, block); }
    else { r, last := AgreeWithin(fp, p, prog, maxDepth, limit, st, stack, steps, block); }
  }

  /** Out of budget, or about to return. */
  lemma {:induction false} AgreeHere(
      fp: FloatModel, p: Program, prog: CProgram, maxDepth: nat, limit: nat, st: State, stack: seq<nat>, steps: nat,
      block: Block)
      returns (r: NativeResult, last: State)
    requires Safe(fp, p, st, stack) && HasBlock(p, prog, st, stack, block) && steps <= limit
    requires steps < limit ==> p.code[st.pc].op.Return? && p.code[st.pc].a < |st.regs|
    ensures Comes(fp, prog, limit, stack[|stack| - 1], st.pc, st.regs, steps, r)
    ensures Agreed(fp, p, maxDepth, limit, r, st, stack, steps, last)
  {
    last := st;
    if steps == limit {
      r := Exit71;
      RunsToHere(fp, p, maxDepth, limit, st, steps);
    } else {
      r := Gave(st.regs[p.code[st.pc].a], st.regs, steps + 1);
      GiveLabel(fp, prog, limit, stack[|stack| - 1], st.pc, st.regs, steps, p.code[st.pc].a);
    }
  }

  lemma {:induction false} GiveLabel(
      fp: FloatModel, prog: CProgram, limit: nat, f: nat, l: nat, regs: seq<Double>, steps: nat, a: nat)
    requires steps < limit && f < |prog.functions| && l in prog.functions[f].blocks && a < |regs|
    requires prog.functions[f].blocks[l] == Block(Nothing, Give(a))
    ensures Comes(fp, prog, limit, f, l, regs, steps, Gave(regs[a], regs, steps + 1))
  {
  }

  /** An instruction that neither calls nor returns. */
  lemma {:induction false} AgreeWithin(
      fp: FloatModel, p: Program, prog: CProgram, maxDepth: nat, limit: nat, st: State, stack: seq<nat>, steps: nat,
      block: Block)
      returns (r: NativeResult, last: State)
    requires Setting(fp, p, prog, maxDepth) && Safe(fp, p, st, stack) && steps < limit
    requires HasBlock(p, prog, st, stack, block)
    requires IsPlain(p.code[st.pc].op) || p.code[st.pc].op.Jump? || p.code[st.pc].op.JumpIfFalse?
    requires StepSafe(fp, p, maxDepth, Step(fp, p, maxDepth, st), stack)
    ensures Comes(fp, prog, limit, stack[|stack| - 1], st.pc, st.regs, steps, r)
    ensures Agreed(fp, p, maxDepth, limit, r, st, stack, steps, last)
    decreases limit - steps, 0
  {
    var f, out := stack[|stack| - 1], Step(fp, p, maxDepth, st);
    last := st;
    WithinLabel(fp, p, prog, maxDepth, limit, st, f, steps, block, stack);
    if out.Running? {
      SameRunStep(fp, p, maxDepth, limit, st, out.state, steps);
      r, last := Agree(fp, p, prog, maxDepth, limit, out.state, stack, steps + 1);
      ComesAfter(fp, prog, limit, f, st.pc, st.regs, steps, out.state.pc, out.state.regs, r);
      AgreedLater(fp, p, maxDepth, limit, r, st, out.state, stack, steps, steps + 1, last);
    } else {
      r := Exit70(steps + 1);
      RunsToHere(fp, p, maxDepth, limit, st, steps);
    }
  }

  /** The generated code goes on from label l to label m in one step. */
  ghost predicate GoesTo(
      fp: FloatModel, prog: CProgram, limit: nat, f: nat, l: nat, regs: seq<Double>, steps: nat, m: nat, regs': seq<Double>)
  {
    steps < limit &&
    forall k: nat {:trigger Spelled(k)} | k == 2 && Spelled(k) ::
      RunLabel(fp, prog, limit, f, l, regs, steps) == RunLabel(fp, prog, limit, f, m, regs', steps + 1)
  }

  lemma {:induction false} ComesAfter(
      fp: FloatModel, prog: CProgram, limit: nat, f: nat, l: nat, regs: seq<Double>, steps: nat, m: nat, regs': seq<Double>,
      r: NativeResult)
    requires GoesTo(fp, prog, limit, f, l, regs, steps, m, regs')
    requires Comes(fp, prog, limit, f, m, regs', steps + 1, r)
    ensures Comes(fp, prog, limit, f, l, regs, steps, r)
  {
    assert Spelled(2);
  }

  /** The block of such an instruction does what the machine does. */
  lemma {:induction false} WithinLabel(
      fp: FloatModel, p: Program, prog: CProgram, maxDepth: nat, limit: nat, st: State, f: nat, steps: nat, block: Block,
      stack: seq<nat>)
    requires HasBlock(p, prog, st, stack, block) && steps < limit && f == stack[|stack| - 1]
    requires IsPlain(p.code[st.pc].op) || p.code[st.pc].op.Jump? || p.code[st.pc].op.JumpIfFalse?
    requires StepSafe(fp, p, maxDepth, Step(fp, p, maxDepth, st), stack)
    ensures match Step(fp, p, maxDepth, st)
            case Running(next) =>
              next.frames == st.frames && GoesTo(fp, prog, limit, f, st.pc, st.regs, steps, next.pc, next.regs)
            case Halted(h) => IsFault(h) && Comes(fp, prog, limit, f, st.pc, st.regs, steps, Exit70(steps + 1))
  {
    if IsPlain(p.code[st.pc].op) {
      ActAgrees(fp, p, maxDepth, st, block);
      PlainLabel(fp, prog, limit, f, st.pc, st.regs, steps, block);
    } else {
      BranchLabel(fp, prog, limit, f, st.pc, st.regs, steps, block);
    }
  }

  lemma {:induction false} PlainLabel(
      fp: FloatModel, prog: CProgram, limit: nat, f: nat, l: nat, regs: seq<Double>, steps: nat, block: Block)
    requires steps < limit && f < |prog.functions| && l in prog.functions[f].blocks && prog.functions[f].blocks[l] == block
    requires block.Block? && block.leave.Goto? && !block.action.SetCall?
    ensures match Act(fp, block.action, regs)
            case Registers(regs') => GoesTo(fp, prog, limit, f, l, regs, steps, block.leave.target, regs')
            case Refused => Comes(fp, prog, limit, f, l, regs, steps, Exit70(steps + 1))
            case OutOfArray => true
  {
    var out := Act(fp, block.action, regs);
    if out.Registers? {
      assert RunLeave(fp, prog, limit, f, block.leave, out.regs, steps + 1)
          == RunLabel(fp, prog, limit, f, block.leave.target, out.regs, steps + 1);
    }
  }

  lemma {:induction false} BranchLabel(
      fp: FloatModel, prog: CProgram, limit: nat, f: nat, l: nat, regs: seq<Double>, steps: nat, block: Block)
    requires steps < limit && f < |prog.functions| && l in prog.functions[f].blocks && prog.functions[f].blocks[l] == block
    requires block.Block? && block.action == Nothing
    ensures block.leave.Goto? ==> GoesTo(fp, prog, limit, f, l, regs, steps, block.leave.target, regs)
    ensures block.leave.Choose? && block.leave.a < |regs| ==>
              GoesTo(fp, prog, limit, f, l, regs, steps,
                     if fp.isZero(regs[block.leave.a]) then block.leave.ifZero else block.leave.otherwise, regs)
  {
    assert RunLabel(fp, prog, limit, f, l, regs, steps) == RunLeave(fp, prog, limit, f, block.leave, regs, steps + 1);
  }

  // ----- calls -----

  /** Coming back from a callee that gave a value: the machine's RETURN writes what the C assignment writes. */
  lemma {:induction false} ComeBack(
      fp: FloatModel, p: Program, maxDepth: nat, limit: nat, last: State, stack: seq<nat>, n: nat)
    requires Good(fp, p) && Safe(fp, p, last, stack) && last.frames != [] && 0 < n <= limit
    requires last.pc < |p.code| && p.code[last.pc].op.Return?
    ensures var frame := last.frames[|last.frames| - 1];
            && p.code[last.pc].a < |last.regs| && frame.destination < |last.regs|
            && var next := State(frame.returnPc, last.regs[frame.destination := last.regs[p.code[last.pc].a]],
                                 last.frames[..|last.frames| - 1]);
            && Safe(fp, p, next, stack[..|stack| - 1])
            && SameRun(fp, p, maxDepth, limit, last, n - 1, next, n)
  {
    var m := |stack| - 1;
    assert FrameAt(p, stack, last.frames, m);
    ReturnFits(fp, p, stack[m - 1], stack[m], last.pc, last.frames[m - 1], last.regs);
    StepKeepsSafe(fp, p, maxDepth, last, stack);
    ReturnStep(fp, p, maxDepth, last);
    SameRunStep(fp, p, maxDepth, limit, last, Step(fp, p, maxDepth, last).state, n - 1);
  }

  /** The same, with what is left of the frames and of the stack named. */
  lemma {:induction false} ComeBackTo(
      fp: FloatModel, p: Program, maxDepth: nat, limit: nat, last: State, stack: seq<nat>, g: nat, n: nat,
      frames: seq<Frame>, frame: Frame, next: State)
    requires Good(fp, p) && Safe(fp, p, last, stack + [g]) && last.frames == frames + [frame] && 0 < n <= limit
    requires last.pc < |p.code| && p.code[last.pc].op.Return? && p.code[last.pc].a < |last.regs|
    requires frame.destination < |last.regs|
    requires next == State(frame.returnPc, last.regs[frame.destination := last.regs[p.code[last.pc].a]], frames)
    ensures Safe(fp, p, next, stack) && SameRun(fp, p, maxDepth, limit, last, n - 1, next, n)
  {
    ComeBack(fp, p, maxDepth, limit, last, stack + [g], n);
    assert last.frames[..|last.frames| - 1] == frames && (stack + [g])[..|stack|] == stack;
  }

  /** The callee has come to its RETURN. */
  lemma {:induction false} GaveAfter(
      fp: FloatModel, p: Program, maxDepth: nat, limit: nat, r: NativeResult, st: State, steps: nat,
      entry: State, stack: seq<nat>, last: State)
    requires SameRun(fp, p, maxDepth, limit, st, steps, entry, steps + 1)
    requires r.Gave? && Agreed(fp, p, maxDepth, limit, r, entry, stack, steps + 1, last)
    ensures Safe(fp, p, last, stack) && last.frames == entry.frames && last.regs == r.regs && |r.regs| == p.registerCount
    ensures last.pc < |p.code| && p.code[last.pc].op.Return?
    ensures p.code[last.pc].a < |r.regs| && r.regs[p.code[last.pc].a] == r.value
    ensures steps + 1 < r.steps <= limit && SameRun(fp, p, maxDepth, limit, st, steps, last, r.steps - 1)
  {
    SameRunTrans(fp, p, maxDepth, limit, st, steps, entry, steps + 1, last, r.steps - 1);
  }

  lemma {:induction false} ReturnStep(fp: FloatModel, p: Program, maxDepth: nat, st: State)
    requires st.pc < |p.code| && p.code[st.pc].op.Return? && st.frames != []
    requires p.code[st.pc].a < |st.regs| && st.frames[|st.frames| - 1].destination < |st.regs|
    ensures var frame := st.frames[|st.frames| - 1];
            Step(fp, p, maxDepth, st)
            == Running(State(frame.returnPc, st.regs[frame.destination := st.regs[p.code[st.pc].a]],
                             st.frames[..|st.frames| - 1]))
  {
  }

  /** What a call block comes to, given what the callee comes to. */
  lemma {:induction false} CallLabel(
      fp: FloatModel, prog: CProgram, limit: nat, f: nat, l: nat, regs: seq<Double>, steps: nat,
      a: nat, g: nat, c: nat, next: nat, inner: NativeResult, r: NativeResult)
    requires steps < limit && f < |prog.functions| && l in prog.functions[f].blocks
    requires prog.functions[f].blocks[l] == Block(SetCall(a, g, c), Goto(next))
    requires inner == RunFunction(fp, prog, limit, g, c, regs, steps + 1)
    requires if inner.Gave? then a < |inner.regs| && Comes(fp, prog, limit, f, next, inner.regs[a := inner.value], inner.steps, r)
             else r == inner
    ensures Comes(fp, prog, limit, f, l, regs, steps, r)
  {
    if inner.Gave? {
      assert Spelled(2);
      assert RunLeave(fp, prog, limit, f, Goto(next), inner.regs[a := inner.value], inner.steps) == r;
    }
  }

  lemma {:induction false} FunctionLabel(
      fp: FloatModel, prog: CProgram, limit: nat, ins: Instruction, regs: seq<Double>, steps: nat, entry: State,
      r: NativeResult)
    requires steps <= limit && Entered(prog, ins, regs, entry)
    requires Comes(fp, prog, limit, ins.b, entry.pc, entry.regs, steps, r)
    ensures RunFunction(fp, prog, limit, ins.b, ins.c, regs, steps) == r
  {
    assert Spelled(2);
  }

  /** What the setting says about a call: the machine enters the callee as the C call does. */
  lemma {:induction false} NextCall(
      fp: FloatModel, p: Program, prog: CProgram, maxDepth: nat, st: State, stack: seq<nat>) returns (entry: State)
    requires Setting(fp, p, prog, maxDepth) && Safe(fp, p, st, stack)
    requires st.pc < |p.code| && p.code[st.pc].op.Call?
    ensures Step(fp, p, maxDepth, st) == Running(entry) && Safe(fp, p, entry, stack + [p.code[st.pc].b])
    ensures p.code[st.pc].a < p.registerCount && entry.frames == st.frames + [Frame(st.pc + 1, p.code[st.pc].a)]
    ensures Entered(prog, p.code[st.pc], st.regs, entry)
  {
    SettingSays(fp, p, prog, maxDepth);
    entry := CallEnters(fp, p, maxDepth, st, stack);
    CallHead(p, prog, p.code[st.pc], st.regs, entry);
  }

  lemma {:induction false} CallEnters(fp: FloatModel, p: Program, maxDepth: nat, st: State, stack: seq<nat>)
      returns (entry: State)
    requires Good(fp, p) && |Table(p)| <= maxDepth + 1 && Safe(fp, p, st, stack)
    requires st.pc < |p.code| && p.code[st.pc].op.Call?
    ensures Step(fp, p, maxDepth, st) == Running(entry) && Safe(fp, p, entry, stack + [p.code[st.pc].b])
    ensures p.code[st.pc].a < p.registerCount && entry.frames == st.frames + [Frame(st.pc + 1, p.code[st.pc].a)]
    ensures Begun(p, p.code[st.pc], st.regs, entry)
  {
    AcceptedAt(fp, p, st.pc);
    CallDestination(fp, p, st.pc);
    CallIsReady(fp, p, stack[|stack| - 1], st.pc, st.regs);
    RoomToCall(fp, p, st, stack);
    CallResult(fp, p, maxDepth, st);
    StepKeepsSafe(fp, p, maxDepth, st, stack);
    entry := Step(fp, p, maxDepth, st).state;
  }

  /** The machine at the start of the function called. */
  ghost predicate Begun(p: Program, ins: Instruction, regs: seq<Double>, entry: State) {
    && ins.b < |Table(p)|
    && var info := Table(p)[ins.b];
    && ins.c + info.arity <= |regs| && info.base + info.arity <= |regs|
    && entry.pc == info.start && entry.regs == WriteArgs(regs, info.base, regs[ins.c..ins.c + info.arity])
  }

  lemma {:induction false} CallHead(p: Program, prog: CProgram, ins: Instruction, regs: seq<Double>, entry: State)
    requires Image(p, prog) && Begun(p, ins, regs, entry)
    ensures Entered(prog, ins, regs, entry)
  {
    assert HeadOk(p, prog, ins.b);
  }

  /** The prologue of the C function, seen from a call instruction. */
  ghost predicate Entered(prog: CProgram, ins: Instruction, regs: seq<Double>, entry: State) {
    && ins.b < |prog.functions|
    && var fn := prog.functions[ins.b];
    && ins.c + fn.arity <= |regs| && fn.base + fn.arity <= |regs|
    && entry.pc == fn.entry && entry.regs == WriteArgs(regs, fn.base, regs[ins.c..ins.c + fn.arity])
  }

  /** A call: into the callee, through it, and on after it. */
  lemma {:induction false} AgreeCall(
      fp: FloatModel, p: Program, prog: CProgram, maxDepth: nat, limit: nat, st: State, stack: seq<nat>, steps: nat,
      block: Block)
      returns (r: NativeResult, last: State)
    requires Setting(fp, p, prog, maxDepth) && Safe(fp, p, st, stack) && steps < limit
    requires HasBlock(p, prog, st, stack, block) && p.code[st.pc].op.Call?
    ensures Comes(fp, prog, limit, stack[|stack| - 1], st.pc, st.regs, steps, r)
    ensures Agreed(fp, p, maxDepth, limit, r, st, stack, steps, last)
    decreases limit - steps, 1
  {
    var f, ins := stack[|stack| - 1], p.code[st.pc];
    var entry, inner, end := AgreeCallee(fp, p, prog, maxDepth, limit, st, stack, steps);
    r, last := inner, end;
    if inner.Gave? {
      var next := AfterCall(fp, p, prog, maxDepth, limit, st, stack, steps, entry, end, inner);
      r, last := Agree(fp, p, prog, maxDepth, limit, next, stack, inner.steps);
      AgreedLater(fp, p, maxDepth, limit, r, st, next, stack, steps, inner.steps, last);
    } else {
      StoppedInside(fp, p, maxDepth, limit, inner, st, entry, stack, stack + [ins.b], steps, end);
    }
    CallLabel(fp, prog, limit, f, st.pc, st.regs, steps, ins.a, ins.b, ins.c, st.pc + 1, inner, r);
  }

  lemma {:induction false} AgreeCallee(
      fp: FloatModel, p: Program, prog: CProgram, maxDepth: nat, limit: nat, st: State, stack: seq<nat>, steps: nat)
      returns (entry: State, inner: NativeResult, end: State)
    requires Setting(fp, p, prog, maxDepth) && Safe(fp, p, st, stack) && steps < limit
    requires st.pc < |p.code| && p.code[st.pc].op.Call?
    ensures p.code[st.pc].a < p.registerCount && entry.frames == st.frames + [Frame(st.pc + 1, p.code[st.pc].a)]
    ensures inner == RunFunction(fp, prog, limit, p.code[st.pc].b, p.code[st.pc].c, st.regs, steps + 1)
    ensures SameRun(fp, p, maxDepth, limit, st, steps, entry, steps + 1)
    ensures Agreed(fp, p, maxDepth, limit, inner, entry, stack + [p.code[st.pc].b], steps + 1, end)
    decreases limit - steps, 0
  {
    var ins := p.code[st.pc];
    entry := NextCall(fp, p, prog, maxDepth, st, stack);
    SameRunStep(fp, p, maxDepth, limit, st, entry, steps);
    inner, end := Agree(fp, p, prog, maxDepth, limit, entry, stack + [ins.b], steps + 1);
    FunctionLabel(fp, prog, limit, ins, st.regs, steps + 1, entry, inner);
  }

  /** A callee that stops the program stops it for its caller. */
  lemma {:induction false} StoppedInside(
      fp: FloatModel, p: Program, maxDepth: nat, limit: nat, r: NativeResult, st: State, entry: State,
      stack: seq<nat>, stack': seq<nat>, steps: nat, last: State)
    requires Agreed(fp, p, maxDepth, limit, r, entry, stack', steps + 1, last) && !r.Gave?
    requires SameRun(fp, p, maxDepth, limit, st, steps, entry, steps + 1)
    ensures Agreed(fp, p, maxDepth, limit, r, st, stack, steps, last)
  {
    match r
    case Exit70(n) =>
      if RunsTo(fp, p, maxDepth, limit, entry, steps + 1, Stopped(DivisionByZero, n)) {
        RunsToAfter(fp, p, maxDepth, limit, st, steps, entry, steps + 1, Stopped(DivisionByZero, n));
      } else {
        RunsToAfter(fp, p, maxDepth, limit, st, steps, entry, steps + 1, Stopped(NonFinite, n));
      }
    case Exit71 => RunsToAfter(fp, p, maxDepth, limit, st, steps, entry, steps + 1, StepLimit);
  }

  /** The state after the call. */
  lemma {:induction false} Landed(
      fp: FloatModel, p: Program, maxDepth: nat, limit: nat, st: State, stack: seq<nat>, steps: nat,
      end: State, a: nat, g: nat, v: Double, n: nat) returns (next: State)
    requires Good(fp, p) && Safe(fp, p, end, stack + [g]) && end.frames == st.frames + [Frame(st.pc + 1, a)]
    requires end.pc < |p.code| && p.code[end.pc].op.Return? && p.code[end.pc].a < |end.regs| && end.regs[p.code[end.pc].a] == v
    requires a < |end.regs| && 0 < n <= limit && SameRun(fp, p, maxDepth, limit, st, steps, end, n - 1)
    ensures next == State(st.pc + 1, end.regs[a := v], st.frames) && Safe(fp, p, next, stack)
    ensures SameRun(fp, p, maxDepth, limit, st, steps, next, n)
  {
    next := State(st.pc + 1, end.regs[a := v], st.frames);
    ComeBackTo(fp, p, maxDepth, limit, end, stack, g, n, st.frames, Frame(st.pc + 1, a), next);
    SameRunTrans(fp, p, maxDepth, limit, st, steps, end, n - 1, next, n);
  }

  lemma {:induction false} AfterCall(
      fp: FloatModel, p: Program, prog: CProgram, maxDepth: nat, limit: nat, st: State, stack: seq<nat>, steps: nat,
      entry: State, end: State, inner: NativeResult)
      returns (next: State)
    requires Setting(fp, p, prog, maxDepth) && steps < limit
    requires st.pc < |p.code| && p.code[st.pc].op.Call? && p.code[st.pc].a < p.registerCount
    requires entry.frames == st.frames + [Frame(st.pc + 1, p.code[st.pc].a)]
    requires SameRun(fp, p, maxDepth, limit, st, steps, entry, steps + 1)
    requires inner.Gave? && Agreed(fp, p, maxDepth, limit, inner, entry, stack + [p.code[st.pc].b], steps + 1, end)
    ensures p.code[st.pc].a < |inner.regs| && next == State(st.pc + 1, inner.regs[p.code[st.pc].a := inner.value], st.frames)
    ensures Safe(fp, p, next, stack) && SameRun(fp, p, maxDepth, limit, st, steps, next, inner.steps)
  {
    var ins := p.code[st.pc];
    GaveAfter(fp, p, maxDepth, limit, inner, st, steps, entry, stack + [ins.b], end);
    GoodSetting(fp, p, prog, maxDepth);
    next := Landed(fp, p, maxDepth, limit, st, stack, steps, end, ins.a, ins.b, inner.value, inner.steps);
  }

  // ----- whole programs -----

  /** The result of a generated program and of a run of the machine. */
  ghost predicate SameResult(native: NativeResult, machine: RunResult) {
    match machine
    case StepLimit => native == Exit71
    case Stopped(Finished(v), n) => native.Gave? && native.value == v && native.steps == n
    case Stopped(h, n) => IsFault(h) && native == Exit70(n)
  }

  lemma {:induction false} NativeAgrees(fp: FloatModel, p: Program, prog: CProgram, maxDepth: nat, limit: nat)
    requires Setting(fp, p, prog, maxDepth)
    ensures Accepted(fp, p) && SameResult(RunNative(fp, prog, limit), Run(fp, p, maxDepth, limit))
  {
    SettingSays(fp, p, prog, maxDepth);
    InitialSafe(fp, p);
    var st := InitialState(p);
    var r, last := Agree(fp, p, prog, maxDepth, limit, st, [0], 0);
    EnterMain(fp, p, prog, limit, r);
    EndOfMain(fp, p, maxDepth, limit, r, st, last);
  }

  /** The entry function copies zeros onto zeros, if it has parameters at all. */
  lemma {:induction false} EnterMain(fp: FloatModel, p: Program, prog: CProgram, limit: nat, r: NativeResult)
    requires Accepted(fp, p) && Image(p, prog)
    requires Comes(fp, prog, limit, 0, Table(p)[0].start, Zeros(p.registerCount), 0, r)
    ensures RunNative(fp, prog, limit) == r
  {
    var regs, info := Zeros(p.registerCount), Table(p)[0];
    assert HeadOk(p, prog, 0);
    assert info.base + info.arity <= |regs|;
    assert WriteArgs(regs, info.base, regs[0..0 + info.arity]) == regs;
    FunctionLabel(fp, prog, limit, Instruction(Opcode.Call, 0, 0, 0, ZERO), regs, 0, State(info.start, regs, []), r);
  }

  lemma {:induction false} EndOfMain(
      fp: FloatModel, p: Program, maxDepth: nat, limit: nat, r: NativeResult, st: State, last: State)
    requires Agreed(fp, p, maxDepth, limit, r, st, [0], 0, last) && st.frames == []
    requires |Table(p)| > 0 && st == InitialState(p)
    ensures SameResult(r, Run(fp, p, maxDepth, limit))
  {
    assert Spelled(1);
  }

  /** The same for every budget. */
  lemma {:induction false} BackendAgreesAt(fp: FloatModel, p: Program, limit: nat)
    requires fp.WellBehaved() && VerifyStatus(fp, p) == Ok && AllTranslatable(p)
    ensures |Table(p)| > 0
    ensures SameResult(RunNative(fp, Native.ProgramOf(p), limit), Run(fp, p, MAX_CALL_DEPTH, limit))
  {
    AcceptedIff(fp, p);
    ProgramIsImage(fp, p);
    NativeAgrees(fp, p, Native.ProgramOf(p), MAX_CALL_DEPTH, limit);
  }

  /** The native backend is the machine: it emits every program the verifier accepts, the C it emits has all
      its labels and no undefined behaviour, and it ends with the same value, the same failure and the same
      number of counted steps as the machine under its default limits. */
  lemma {:induction false} BackendIsFaithful(fp: FloatModel, p: Program)
    requires fp.WellBehaved() && VerifyStatus(fp, p) == Ok
    ensures |Table(p)| > 0 && AllTranslatable(p) && LabelsOk(Native.ProgramOf(p))
    ensures SameResult(RunNative(fp, Native.ProgramOf(p), NATIVE_STEP_LIMIT), Run(fp, p, MAX_CALL_DEPTH, DEFAULT_STEP_LIMIT))
  {
    AcceptedIff(fp, p);
    AcceptedTranslates(fp, p);
    ProgramIsImage(fp, p);
    GeneratedLabelsOk(fp, p, Native.ProgramOf(p));
    BackendAgreesAt(fp, p, NATIVE_STEP_LIMIT);
  }
}
