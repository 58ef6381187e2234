/** What the bytecode verifier accepts, status by status.  Version 1.0 is the case of a single function
    that starts at instruction zero. */
module Verifier {
  import opened Wrappers
  import opened Floats
  import opened Bytecode
  import opened CallGraph

  datatype Status =
    | Ok | BadMagic | BadVersion | LimitExceeded | BadFormat | BadOpcode | BadOperand | BadType | BadControlFlow
    | BufferTooSmall

  // ----- function table -----

  /** The function whose instructions surround position pc: the last one whose marker is not behind it. */
  function OwnerOf(fns: seq<Info>, pc: nat): (f: nat)
    requires |fns| > 0
    ensures f < |fns|
  {
    var n := |fns| - 1;
    if n == 0 || fns[n].start <= pc + 1 then n else OwnerOf(fns[..n], pc)
  }

  /** The marker of function i has number i and parameters inside the register file. */
  predicate MarkerOk(p: Program, ms: seq<nat>, i: nat)
    requires i < |ms|
  {
    && ms[i] < |p.code|
    && i < MAX_FUNCTIONS
    && var mark := p.code[ms[i]];
    mark.a == i && mark.b <= p.registerCount && mark.b + mark.c <= p.registerCount
  }

  predicate MarkersOk(p: Program, ms: seq<nat>) {
    forall i | 0 <= i < |ms| :: MarkerOk(p, ms, i)
  }

  function TableStatus(p: Program): Status {
    if p.minor < CALL_MINOR then Ok
    else
      var ms := Markers(p.code, 0);
      if |p.code| == 0 || !p.code[0].op.FunctionMark? then BadFormat
      else if !MarkersOk(p, ms) then BadOperand
      else if exists f | 0 <= f < |Table(p)| :: Table(p)[f].start >= Table(p)[f].end then BadControlFlow
      else Ok
  }

  /** The two tables of version 1.2. */
  predicate TagsOk(p: Program) {
    && |p.registerTypes| == p.registerCount && |p.returnTypes| == |Table(p)|
    && |p.returnTypes| > 0 && p.returnTypes[0] == NUMBER_TAG
    && (forall r | 0 <= r < |p.registerTypes| :: IsTag(p.registerTypes[r]))
    && (forall f | 0 <= f < |p.returnTypes| :: IsTag(p.returnTypes[f]))
  }

  // ----- single instructions -----

  /** Operand ranges, unused operands zero, branch targets in the same function. */
  predicate OperandsOk(fp: FloatModel, p: Program, fns: seq<Info>, pc: nat)
    requires pc < |p.code| && |fns| > 0
  {
    var ins, n := p.code[pc], p.registerCount;
    match ins.op
    case ConstF64 => ins.a < n && ins.b == 0 && ins.c == 0 && fp.finite(ins.imm)
    case ConstBool => p.minor == TYPED_MINOR && ins.a < n && ins.b == 0 && ins.c == 0 && IsFlag(fp, ins.imm)
    case Move => ins.a < n && ins.b < n && ins.c == 0 && ins.imm == ZERO
    case Neg => ins.a < n && ins.b < n && ins.c == 0 && ins.imm == ZERO
    case Calc(_) => ins.a < n && ins.b < n && ins.c < n && ins.imm == ZERO
    case Test(_) => ins.a < n && ins.b < n && ins.c < n && ins.imm == ZERO
    case Jump => ins.a < |p.code| && ins.b == 0 && ins.c == 0 && ins.imm == ZERO && TargetOk(p, fns, pc, ins.a)
    case JumpIfFalse => ins.a < n && ins.b < |p.code| && ins.c == 0 && ins.imm == ZERO && TargetOk(p, fns, pc, ins.b)
    case Return => ins.a < n && ins.b == 0 && ins.c == 0 && ins.imm == ZERO
    case FunctionMark =>
      && p.minor >= CALL_MINOR && ins.imm == ZERO
      && ins.a < |fns| && fns[ins.a].start == pc + 1 && fns[ins.a].base == ins.b && fns[ins.a].arity == ins.c
      && ins.b <= n && ins.b + ins.c <= n
    case Call =>
      && p.minor >= CALL_MINOR && ins.a < n && ins.b < |fns|
      && fp.whole(ins.imm).Some? && ins.c + fp.whole(ins.imm).value <= n
      && fp.whole(ins.imm).value == fns[ins.b].arity
    case Unknown(_) => false
  }

  /** Zero of either sign or one. */
  predicate IsFlag(fp: FloatModel, d: Double) { fp.isZero(d) || d == ONE }

  predicate TargetOk(p: Program, fns: seq<Info>, pc: nat, target: nat)
    requires target < |p.code| && |fns| > 0
  {
    p.minor >= CALL_MINOR ==> OwnerOf(fns, target) == OwnerOf(fns, pc) && !p.code[target].op.FunctionMark?
  }

  /** The types of version 1.2. */
  predicate TypesOk(fp: FloatModel, p: Program, fns: seq<Info>, pc: nat)
    requires pc < |p.code| && |fns| > 0 && OperandsOk(fp, p, fns, pc)
    requires |p.registerTypes| == p.registerCount
    requires forall f | 0 <= f < |fns| :: fns[f].base + fns[f].arity <= p.registerCount
  {
    var ins, types := p.code[pc], p.registerTypes;
    match ins.op
    case ConstF64 => types[ins.a] == NUMBER_TAG
    case ConstBool => types[ins.a] == BOOLEAN_TAG
    case Move => types[ins.a] == types[ins.b]
    case Neg => types[ins.a] == NUMBER_TAG && types[ins.b] == NUMBER_TAG
    case Calc(_) => types[ins.a] == NUMBER_TAG && types[ins.b] == NUMBER_TAG && types[ins.c] == NUMBER_TAG
    case Test(op) =>
      if op.Equal? || op.NotEqual? then types[ins.b] == types[ins.c] && types[ins.a] == BOOLEAN_TAG
      else types[ins.b] == NUMBER_TAG && types[ins.c] == NUMBER_TAG && types[ins.a] == BOOLEAN_TAG
    case JumpIfFalse => types[ins.a] == BOOLEAN_TAG
    case Return => types[ins.a] == fns[OwnerOf(fns, pc)].returnTag
    case Call =>
      && types[ins.a] == fns[ins.b].returnTag
      && forall i | 0 <= i < fns[ins.b].arity :: SameTag(types, ins.c, fns[ins.b].base, i)
    case _ => true
  }

  predicate SameTag(types: seq<nat>, c: nat, base: nat, i: nat) {
    c + i < |types| && base + i < |types| && types[c + i] == types[base + i]
  }

  /** The parameters of every function lie in the register file. */
  predicate BasesOk(p: Program, fns: seq<Info>) {
    |fns| > 0 && forall f | 0 <= f < |fns| :: fns[f].base + fns[f].arity <= p.registerCount
  }

  function InstructionStatus(fp: FloatModel, p: Program, fns: seq<Info>, pc: nat): Status
    requires pc < |p.code| && BasesOk(p, fns) && (p.minor == TYPED_MINOR ==> |p.registerTypes| == p.registerCount)
  {
    if p.code[pc].op.Unknown? then BadOpcode
    else if !OperandsOk(fp, p, fns, pc) then BadOperand
    else if p.minor == TYPED_MINOR && !TypesOk(fp, p, fns, pc) then BadType
    else Ok
  }

  /** The first complaint at or after `from`. */
  function CodeStatus(fp: FloatModel, p: Program, fns: seq<Info>, from: nat): (r: Status)
    requires from <= |p.code| && BasesOk(p, fns) && (p.minor == TYPED_MINOR ==> |p.registerTypes| == p.registerCount)
    ensures r == Ok <==> forall pc | from <= pc < |p.code| :: InstructionStatus(fp, p, fns, pc) == Ok
    decreases |p.code| - from
  {
    if from == |p.code| then Ok
    else
      var s := InstructionStatus(fp, p, fns, from);
      if s != Ok then s else CodeStatus(fp, p, fns, from + 1)
  }

  /** The same for records of which the first `clean` have no reserved bytes set: the next one is malformed. */
  function RecordStatus(fp: FloatModel, p: Program, fns: seq<Info>, clean: nat, from: nat): (r: Status)
    requires from <= |p.code| && BasesOk(p, fns) && (p.minor == TYPED_MINOR ==> |p.registerTypes| == p.registerCount)
    decreases |p.code| - from
  {
    if from == |p.code| then Ok
    else if from == clean then BadFormat
    else
      var s := InstructionStatus(fp, p, fns, from);
      if s != Ok then s else RecordStatus(fp, p, fns, clean, from + 1)
  }

  lemma {:induction false} CleanRecords(fp: FloatModel, p: Program, fns: seq<Info>, clean: nat, from: nat)
    requires from <= |p.code| && BasesOk(p, fns) && (p.minor == TYPED_MINOR ==> |p.registerTypes| == p.registerCount)
    requires from <= clean
    ensures clean >= |p.code| ==> RecordStatus(fp, p, fns, clean, from) == CodeStatus(fp, p, fns, from)
    ensures clean < |p.code| ==> RecordStatus(fp, p, fns, clean, from) != Ok
    decreases |p.code| - from
  {
    if from < |p.code| && from < clean { CleanRecords(fp, p, fns, clean, from + 1); }
  }

  // ----- calls and control flow -----

  ghost function Callees(p: Program, fns: seq<Info>, f: nat): set<nat>
    requires |fns| > 0
  {
    set pc: nat | pc < |p.code| && p.code[pc].op.Call? && OwnerOf(fns, pc) == f :: p.code[pc].b
  }

  ghost function CallEdges(p: Program, fns: seq<Info>): (g: Graph)
    requires |fns| > 0
    ensures |g| == |fns|
  {
    seq(|fns|, f requires 0 <= f < |fns| => Callees(p, fns, f))
  }

  /** Where control can go from pc inside a function. */
  function Successors(p: Program, pc: nat): seq<nat>
    requires pc < |p.code|
  {
    var ins := p.code[pc];
    match ins.op
    case Return => []
    case Jump => [ins.a]
    case JumpIfFalse => [ins.b, pc + 1]
    case _ => [pc + 1]
  }

  /** A walk through the code of one function from its first instruction. */
  ghost predicate IsWalk(p: Program, start: nat, walk: seq<nat>) {
    && |walk| > 0 && walk[0] == start
    && (forall i | 0 <= i < |walk| :: walk[i] < |p.code|)
    && (forall i | 0 < i < |walk| :: Follows(p, walk, i))
  }

  ghost predicate Follows(p: Program, walk: seq<nat>, i: nat) {
    0 < i < |walk| && walk[i - 1] < |p.code| && walk[i] in Successors(p, walk[i - 1])
  }

  ghost predicate Reachable(p: Program, start: nat, pc: nat) {
    exists walk :: IsWalk(p, start, walk) && walk[|walk| - 1] == pc
  }

  /** A reachable instruction stays in function f and is not a marker. */
  predicate FlowOk(p: Program, fns: seq<Info>, f: nat, pc: nat)
    requires f < |fns|
  {
    && pc < |p.code| && OwnerOf(fns, pc) == f && !p.code[pc].op.FunctionMark?
    && (p.code[pc].op.Jump? || p.code[pc].op.Return? || pc + 1 < fns[f].end)
    && forall to | to in Successors(p, pc) :: to < |p.code| && OwnerOf(fns, to) == f
  }

  ghost predicate FlowsOk(p: Program, fns: seq<Info>, f: nat)
    requires f < |fns|
  {
    && fns[f].start < |p.code|
    && (forall pc | Reachable(p, fns[f].start, pc) :: FlowOk(p, fns, f, pc))
    && exists pc | 0 <= pc < |p.code| :: Reachable(p, fns[f].start, pc) && p.code[pc].op.Return?
  }

  ghost predicate AllFlowsOk(p: Program, fns: seq<Info>) {
    forall f | 0 <= f < |fns| :: FlowsOk(p, fns, f)
  }

  // ----- the whole check -----

  ghost function VerifyStatus(fp: FloatModel, p: Program): Status {
    if p.minor > TYPED_MINOR then BadVersion
    else if !(1 <= p.registerCount <= MAX_REGISTERS && 1 <= |p.code| <= MAX_INSTRUCTIONS) then LimitExceeded
    else if TableStatus(p) != Ok then TableStatus(p)
    else if p.minor == TYPED_MINOR && !TagsOk(p) then BadFormat
    else
      var fns := Table(p);
      TableFacts(p);
      if CodeStatus(fp, p, fns, 0) != Ok then CodeStatus(fp, p, fns, 0)
      else if !Ranked(CallEdges(p, fns)) || !AllFlowsOk(p, fns) then BadControlFlow
      else Ok
  }

  /** What the verifier answers about records of which the first `clean` have no reserved bytes set. */
  ghost function RecordsStatus(fp: FloatModel, p: Program, clean: nat): Status {
    if p.minor > TYPED_MINOR then BadVersion
    else if !(1 <= p.registerCount <= MAX_REGISTERS && 1 <= |p.code| <= MAX_INSTRUCTIONS) then LimitExceeded
    else if TableStatus(p) != Ok then TableStatus(p)
    else if p.minor == TYPED_MINOR && !TagsOk(p) then BadFormat
    else
      var fns := Table(p);
      TableFacts(p);
      if RecordStatus(fp, p, fns, clean, 0) != Ok then RecordStatus(fp, p, fns, clean, 0)
      else if !Ranked(CallEdges(p, fns)) || !AllFlowsOk(p, fns) then BadControlFlow
      else Ok
  }

  /** Without reserved bytes the answer is that about the program, and with any it is not acceptance. */
  lemma {:induction false} CleanStatus(fp: FloatModel, p: Program, clean: nat)
    ensures clean >= |p.code| ==> RecordsStatus(fp, p, clean) == VerifyStatus(fp, p)
    ensures clean < |p.code| ==> RecordsStatus(fp, p, clean) != Ok
  {
    if 1 <= |p.code| && TableStatus(p) == Ok && (p.minor == TYPED_MINOR ==> TagsOk(p)) {
      TableFacts(p);
      CleanRecords(fp, p, Table(p), clean, 0);
    }
  }

  /** Functions follow one another and have non-empty bodies. */
  ghost predicate Tiled(p: Program, fns: seq<Info>) {
    && |fns| > 0
    && fns[0].start == (if p.minor < CALL_MINOR then 0 else 1)
    && fns[|fns| - 1].end == |p.code|
    && (forall f | 0 <= f < |fns| :: fns[f].start < fns[f].end <= |p.code|)
    && (forall f | 0 <= f < |fns| - 1 :: Adjacent(fns, f))
    && (p.minor >= CALL_MINOR ==>
          forall pc: nat | pc < |p.code| :: p.code[pc].op.FunctionMark? <==> StartsAt(fns, pc + 1))
  }

  /** Between two functions there is just the marker of the second. */
  ghost predicate Adjacent(fns: seq<Info>, f: nat) {
    f + 1 < |fns| && fns[f].end + 1 == fns[f + 1].start
  }

  ghost predicate StartsAt(fns: seq<Info>, pc: nat) {
    exists f :: 0 <= f < |fns| && fns[f].start == pc
  }

  lemma {:induction false} MarkersStart(p: Program, ms: seq<nat>)
    requires |p.code| > 0 && p.minor >= CALL_MINOR && ms == Markers(p.code, 0)
    ensures forall j | 0 <= j < |ms| :: ms[j] < |p.code|
    ensures |Table(p)| == |ms| && forall f | 0 <= f < |ms| :: Table(p)[f] == InfoAt(p, ms, f)
    ensures p.code[0].op.FunctionMark? ==> |ms| > 0 && ms[0] == 0
    ensures forall pc: nat | pc < |p.code| :: p.code[pc].op.FunctionMark? <==> StartsAt(Table(p), pc + 1)
  {
    var fns := Table(p);
    MarkersCorrect(p.code, 0);
    assert forall j | 0 <= j < |ms| :: ms[j] in ms;
    if p.code[0].op.FunctionMark? { assert 0 in ms; }
    forall pc: nat | pc < |p.code|
      ensures p.code[pc].op.FunctionMark? <==> StartsAt(fns, pc + 1)
    {
      if pc in ms {
        var f :| 0 <= f < |ms| && ms[f] == pc;
        assert fns[f].start == pc + 1;
      }
      if StartsAt(fns, pc + 1) {
        var f :| 0 <= f < |fns| && fns[f].start == pc + 1;
        assert ms[f] in ms;
      }
    }
  }

  /** What the markers say once they have been checked. */
  lemma {:induction false} TableFacts(p: Program)
    requires |p.code| > 0 && TableStatus(p) == Ok
    ensures Tiled(p, Table(p)) && BasesOk(p, Table(p)) && |Table(p)| <= MAX_FUNCTIONS
    ensures forall f | 0 <= f < |Table(p)| :: Table(p)[f].arity <= p.registerCount
  {
    if p.minor >= CALL_MINOR {
      var ms, fns := Markers(p.code, 0), Table(p);
      MarkersStart(p, ms);
      forall f | 0 <= f < |fns|
        ensures fns[f].base + fns[f].arity <= p.registerCount && fns[f].start < fns[f].end <= |p.code| && f < MAX_FUNCTIONS
      {
        assert MarkerOk(p, ms, f);
      }
      forall f | 0 <= f < |fns| - 1
        ensures Adjacent(fns, f)
      {
      }
      assert MarkerOk(p, ms, |ms| - 1);
    }
  }

  /** With functions one after another, ownership is being between a marker and the next. */
  lemma {:induction false} OwnerIs(p: Program, fns: seq<Info>, f: nat, pc: nat)
    requires Tiled(p, fns) && f < |fns| && pc < |p.code|
    ensures OwnerOf(fns, pc) == f <==> fns[f].start <= pc + 1 && pc < fns[f].end
  {
    var o := OwnerOf(fns, pc);
    OwnerFrom(fns, pc);
    if o < |fns| - 1 { assert Adjacent(fns, o); }
    if f < o { EndsBefore(p, fns, f, o); }
    if o < f { EndsBefore(p, fns, o, f); }
  }

  lemma {:induction false} OwnerFrom(fns: seq<Info>, pc: nat)
    requires |fns| > 0
    ensures var o := OwnerOf(fns, pc);
            && (o == 0 || fns[o].start <= pc + 1)
            && forall f | o < f < |fns| :: fns[f].start > pc + 1
    decreases |fns|
  {
    var n := |fns| - 1;
    if n > 0 && fns[n].start > pc + 1 { OwnerFrom(fns[..n], pc); }
  }

  lemma {:induction false} EndsBefore(p: Program, fns: seq<Info>, f: nat, h: nat)
    requires Tiled(p, fns) && f < h < |fns|
    ensures fns[f].end + 1 <= fns[h].start
    decreases h
  {
    if f < h - 1 {
      EndsBefore(p, fns, f, h - 1);
    }
    assert Adjacent(fns, h - 1);
  }

  // ----- what acceptance means -----

  ghost predicate InstructionOk(fp: FloatModel, p: Program, pc: nat)
    requires pc < |p.code| && BasesOk(p, Table(p))
  {
    && OperandsOk(fp, p, Table(p), pc)
    && (p.minor == TYPED_MINOR ==> |p.registerTypes| == p.registerCount && TypesOk(fp, p, Table(p), pc))
  }

  /** The same as a conjunction. */
  ghost predicate Accepted(fp: FloatModel, p: Program) {
    && p.minor <= TYPED_MINOR
    && 1 <= p.registerCount <= MAX_REGISTERS && 1 <= |p.code| <= MAX_INSTRUCTIONS
    && TableStatus(p) == Ok
    && Tiled(p, Table(p)) && BasesOk(p, Table(p)) && |Table(p)| <= MAX_FUNCTIONS
    && (p.minor == TYPED_MINOR ==> TagsOk(p))
    && (forall pc | 0 <= pc < |p.code| :: InstructionOk(fp, p, pc))
    && Ranked(CallEdges(p, Table(p)))
    && AllFlowsOk(p, Table(p))
  }

  lemma {:induction false} AcceptedIff(fp: FloatModel, p: Program)
    ensures VerifyStatus(fp, p) == Ok <==> Accepted(fp, p)
  {
    if 1 <= |p.code| && TableStatus(p) == Ok && (p.minor == TYPED_MINOR ==> TagsOk(p)) {
      var fns := Table(p);
      TableFacts(p);
      forall pc | 0 <= pc < |p.code|
        ensures InstructionStatus(fp, p, fns, pc) == Ok <==> InstructionOk(fp, p, pc)
      {
        if p.code[pc].op.Unknown? { assert !OperandsOk(fp, p, fns, pc); }
      }
    }
  }
}
