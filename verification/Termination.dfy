/** Compiled code stops by itself: branches go forward and calls go down the call graph, so a number that
    can be read off any machine state falls with every step. */
module Termination {
  import opened Wrappers
  import opened Floats
  import opened Hir
  import opened Bytecode
  import opened CallGraph
  import opened Compiler
  import opened CompilerCorrect
  import opened CompilerVerified
  import opened Verifier
  import opened Safety

  /** No instruction leads back. */
  ghost predicate Forward(p: Bytecode.Program) {
    forall pc, to | 0 <= pc < |p.code| && to in Successors(p, pc) :: pc < to
  }

  /** How many steps there can be from pc to the end of a function of rank k, calls included. */
  ghost function Ahead(p: Bytecode.Program, rank: seq<nat>, k: nat, pc: nat, end: nat): nat
    decreases k, if pc < end then end - pc else 0
  {
    if pc >= end then 0 else 1 + Inner(p, rank, k, pc) + Ahead(p, rank, k, pc + 1, end)
  }

  /** The steps inside the callee, if there is a call at pc. */
  ghost function Inner(p: Bytecode.Program, rank: seq<nat>, k: nat, pc: nat): nat
    decreases k, 0
  {
    if pc < |p.code| && p.code[pc].op.Call? && p.code[pc].b < |Table(p)| && p.code[pc].b < |rank|
       && rank[p.code[pc].b] < k
    then
      var g := p.code[pc].b;
      Ahead(p, rank, rank[g], Table(p)[g].start, Table(p)[g].end)
    else 0
  }

  ghost function AheadIn(p: Bytecode.Program, rank: seq<nat>, f: nat, pc: nat): nat {
    if f < |rank| && f < |Table(p)| then Ahead(p, rank, rank[f], pc, Table(p)[f].end) else 0
  }

  /** The steps ahead of all callers. */
  ghost function FramesAhead(p: Bytecode.Program, rank: seq<nat>, stack: seq<nat>, frames: seq<Frame>): nat
    requires |stack| == |frames| + 1
    decreases |frames|
  {
    if frames == [] then 0
    else
      var n := |frames| - 1;
      FramesAhead(p, rank, stack[..|stack| - 1], frames[..n]) + AheadIn(p, rank, stack[n], frames[n].returnPc)
  }

  ghost function Measure(p: Bytecode.Program, rank: seq<nat>, st: State, stack: seq<nat>): nat
    requires |stack| == |st.frames| + 1
  {
    AheadIn(p, rank, stack[|stack| - 1], st.pc) + FramesAhead(p, rank, stack, st.frames)
  }

  lemma {:induction false} AheadFalls(p: Bytecode.Program, rank: seq<nat>, k: nat, pc: nat, pc': nat, end: nat)
    requires pc < end && pc < pc'
    ensures Ahead(p, rank, k, pc', end) < Ahead(p, rank, k, pc, end)
    decreases pc' - pc
  {
    if pc + 1 < pc' && pc + 1 < end { AheadFalls(p, rank, k, pc + 1, pc', end); }
  }

  /** What the descent of one step rests on. */
  ghost predicate Descending(fp: FloatModel, p: Bytecode.Program, rank: seq<nat>) {
    Good(fp, p) && Forward(p) && IsRank(CallEdges(p, Table(p)), rank)
  }

  /** An active position has its own instruction ahead. */
  lemma {:induction false} StepAhead(fp: FloatModel, p: Bytecode.Program, rank: seq<nat>, f: nat, pc: nat)
    requires Descending(fp, p, rank) && Inside(p, f, pc)
    ensures f < |rank| && pc < |p.code| && pc < Table(p)[f].end
    ensures forall to | to in Successors(p, pc) :: AheadIn(p, rank, f, to) < AheadIn(p, rank, f, pc)
  {
    InsideFlow(fp, p, f, pc);
    OwnerIs(p, Table(p), f, pc);
    forall to | to in Successors(p, pc)
      ensures AheadIn(p, rank, f, to) < AheadIn(p, rank, f, pc)
    {
      AheadFalls(p, rank, rank[f], pc, to, Table(p)[f].end);
    }
  }

  lemma {:induction false} StayDescends(
      fp: FloatModel, p: Bytecode.Program, rank: seq<nat>, maxDepth: nat, st: State, stack: seq<nat>)
    requires Descending(fp, p, rank) && Safe(fp, p, st, stack) && Step(fp, p, maxDepth, st).Running?
    requires st.pc < |p.code| && !p.code[st.pc].op.Return? && !p.code[st.pc].op.Call?
    ensures var next := Step(fp, p, maxDepth, st).state;
            next.frames == st.frames && Measure(p, rank, next, stack) < Measure(p, rank, st, stack)
  {
    StepAhead(fp, p, rank, stack[|stack| - 1], st.pc);
    assert Step(fp, p, maxDepth, st).state.pc in Successors(p, st.pc);
  }

  lemma {:induction false} ReturnDescends(
      fp: FloatModel, p: Bytecode.Program, rank: seq<nat>, maxDepth: nat, st: State, stack: seq<nat>)
    requires Descending(fp, p, rank) && Safe(fp, p, st, stack) && Step(fp, p, maxDepth, st).Running?
    requires st.pc < |p.code| && p.code[st.pc].op.Return?
    ensures st.frames != [] && Step(fp, p, maxDepth, st).state.frames == st.frames[..|st.frames| - 1]
    ensures Measure(p, rank, Step(fp, p, maxDepth, st).state, stack[..|stack| - 1]) < Measure(p, rank, st, stack)
  {
    var f := stack[|stack| - 1];
    StepAhead(fp, p, rank, f, st.pc);
    AheadFalls(p, rank, rank[f], st.pc, Table(p)[f].end, Table(p)[f].end);
  }

  lemma {:induction false} CallDescends(
      fp: FloatModel, p: Bytecode.Program, rank: seq<nat>, maxDepth: nat, st: State, stack: seq<nat>)
    requires Descending(fp, p, rank) && Safe(fp, p, st, stack) && Step(fp, p, maxDepth, st).Running?
    requires st.pc < |p.code| && p.code[st.pc].op.Call?
    ensures |Step(fp, p, maxDepth, st).state.frames| == |stack|
    ensures Measure(p, rank, Step(fp, p, maxDepth, st).state, stack + [p.code[st.pc].b]) < Measure(p, rank, st, stack)
  {
    var f, g := stack[|stack| - 1], p.code[st.pc].b;
    StepAhead(fp, p, rank, f, st.pc);
    InsideFlow(fp, p, f, st.pc);
    CallRank(fp, p, f, st.pc, rank);
    var next := CallGoes(fp, p, maxDepth, st);
    CallMeasure(p, rank, st, stack, f, g, next);
  }

  lemma {:induction false} CallGoes(fp: FloatModel, p: Bytecode.Program, maxDepth: nat, st: State) returns (next: State)
    requires st.pc < |p.code| && p.code[st.pc].op.Call? && Step(fp, p, maxDepth, st).Running?
    ensures p.code[st.pc].b < |Table(p)|
    ensures next == Step(fp, p, maxDepth, st).state && next.pc == Table(p)[p.code[st.pc].b].start
    ensures next.frames == st.frames + [Frame(st.pc + 1, p.code[st.pc].a)]
  {
    next := Step(fp, p, maxDepth, st).state;
  }

  lemma {:induction false} CallMeasure(
      p: Bytecode.Program, rank: seq<nat>, st: State, stack: seq<nat>, f: nat, g: nat, next: State)
    requires |stack| == |st.frames| + 1 && f == stack[|stack| - 1] && f < |rank| == |Table(p)|
    requires st.pc < |p.code| && st.pc < Table(p)[f].end && p.code[st.pc].op.Call? && p.code[st.pc].b == g
    requires g < |rank| && rank[g] < rank[f] && next.pc == Table(p)[g].start
    requires next.frames == st.frames + [Frame(st.pc + 1, p.code[st.pc].a)]
    ensures Measure(p, rank, next, stack + [g]) + 1 == Measure(p, rank, st, stack)
  {
    assert (stack + [g])[..|stack|] == stack;
    assert next.frames[..|st.frames|] == st.frames;
    assert Ahead(p, rank, rank[f], st.pc, Table(p)[f].end)
        == 1 + Inner(p, rank, rank[f], st.pc) + Ahead(p, rank, rank[f], st.pc + 1, Table(p)[f].end);
    assert FramesAhead(p, rank, stack + [g], next.frames)
        == FramesAhead(p, rank, stack, st.frames) + AheadIn(p, rank, f, st.pc + 1);
  }

  /** Every step of a run comes with a strictly smaller measure of the state after it. */
  lemma {:induction false} StepDescends(
      fp: FloatModel, p: Bytecode.Program, rank: seq<nat>, maxDepth: nat, st: State, stack: seq<nat>)
    requires Descending(fp, p, rank) && Safe(fp, p, st, stack)
    ensures st.pc < |p.code| && 0 < Measure(p, rank, st, stack)
    ensures var out := Step(fp, p, maxDepth, st);
            out.Running? ==>
              && Safe(fp, p, out.state, StackAfter(p, st, stack))
              && Measure(p, rank, out.state, StackAfter(p, st, stack)) < Measure(p, rank, st, stack)
  {
    var f := stack[|stack| - 1];
    StepAhead(fp, p, rank, f, st.pc);
    AheadFalls(p, rank, rank[f], st.pc, Table(p)[f].end, Table(p)[f].end);
    StepKeepsSafe(fp, p, maxDepth, st, stack);
    if Step(fp, p, maxDepth, st).Running? {
      var op := p.code[st.pc].op;
      if op.Return? { ReturnDescends(fp, p, rank, maxDepth, st, stack); }
      else if op.Call? { CallDescends(fp, p, rank, maxDepth, st, stack); }
      else { StayDescends(fp, p, rank, maxDepth, st, stack); }
    }
  }

  lemma {:induction false} RunStopsInTime(
      fp: FloatModel, p: Bytecode.Program, rank: seq<nat>, maxDepth: nat, maxSteps: nat, st: State, stack: seq<nat>, steps: nat)
    requires Descending(fp, p, rank) && Safe(fp, p, st, stack)
    requires steps + Measure(p, rank, st, stack) <= maxSteps
    ensures RunFrom(fp, p, maxDepth, maxSteps, st, steps).Stopped?
    ensures RunFrom(fp, p, maxDepth, maxSteps, st, steps).steps <= steps + Measure(p, rank, st, stack)
    decreases maxSteps - steps
  {
    StepDescends(fp, p, rank, maxDepth, st, stack);
    var out := Step(fp, p, maxDepth, st);
    if out.Running? {
      RunStopsInTime(fp, p, rank, maxDepth, maxSteps, out.state, StackAfter(p, st, stack), steps + 1);
    }
  }

  /** Branches of compiled code go forward. */
  lemma {:induction false} CompiledForward(fp: FloatModel, hir: ScalarHir, p: Bytecode.Program)
    requires fp.WellBehaved() && Compile(fp, hir) == Some(p)
    ensures Forward(p)
  {
    var pre, g, rank := CompiledOf(fp, hir, p);
    var fns := Ordered(hir);
    OrderedFacts(hir);
    forall pc, to | 0 <= pc < |p.code| && to in Successors(p, pc)
      ensures pc < to
    {
      var f := CodeOwner(fp, fns, pre, |fns|, pc);
      if pc == |pre[f].code| { MarkerAt(fp, fns, pre, f); } else { SuccessorsForward(fp, fns, pre, p, f, pc); }
    }
  }

  /** Compiled code needs no budget: there is a number of steps, fixed by the code alone, within which every
      run stops, whatever the arithmetic does. */
  lemma {:induction false} CompiledCodeTerminates(fp: FloatModel, hir: ScalarHir, p: Bytecode.Program, maxDepth: nat)
      returns (bound: nat)
    requires fp.WellBehaved() && Compile(fp, hir) == Some(p)
    ensures |Table(p)| > 0
    ensures forall limit: nat | bound <= limit ::
              Run(fp, p, maxDepth, limit).Stopped? && Run(fp, p, maxDepth, limit).steps <= bound
  {
    CompiledCodeIsAccepted(fp, hir, p);
    AcceptedIff(fp, p);
    CompiledForward(fp, hir, p);
    var rank :| IsRank(CallEdges(p, Table(p)), rank);
    InitialSafe(fp, p);
    bound := Measure(p, rank, InitialState(p), [0]);
    forall limit: nat | bound <= limit
      ensures Run(fp, p, maxDepth, limit).Stopped? && Run(fp, p, maxDepth, limit).steps <= bound
    {
      RunStopsInTime(fp, p, rank, maxDepth, limit, InitialState(p), [0], 0);
    }
  }
}
