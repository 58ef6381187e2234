/** Exactly which programs the bytecode verifier accepts: a signature for each opcode, and what is asked of markers, calls
    and branches, position by position. */
module Signatures {
  import opened Wrappers
  import opened Floats
  import opened Bytecode
  import opened CallGraph
  import opened Verifier

  // ----- instructions that go on to the next one -----

  /** A field of a record holds zero or the number of a register with this tag. */
  datatype Field = Unused | Register(tag: nat)

  datatype Literal = NoLiteral | FiniteNumber | ZeroOrOne

  datatype Signature = Signature(a: Field, b: Field, c: Field, literal: Literal)

  const NUM := Register(1)
  const FLAG := Register(2)

  function SignaturesOf(op: Opcode): set<Signature> {
    match op
    case ConstF64 => {Signature(NUM, Unused, Unused, FiniteNumber)}
    case ConstBool => {Signature(FLAG, Unused, Unused, ZeroOrOne)}
    case Move => {Signature(NUM, NUM, Unused, NoLiteral), Signature(FLAG, FLAG, Unused, NoLiteral)}
    case Neg => {Signature(NUM, NUM, Unused, NoLiteral)}
    case Calc(Add) => {Signature(NUM, NUM, NUM, NoLiteral)}
    case Calc(Subtract) => {Signature(NUM, NUM, NUM, NoLiteral)}
    case Calc(Multiply) => {Signature(NUM, NUM, NUM, NoLiteral)}
    case Calc(Divide) => {Signature(NUM, NUM, NUM, NoLiteral)}
    case Test(Equal) => {Signature(FLAG, NUM, NUM, NoLiteral), Signature(FLAG, FLAG, FLAG, NoLiteral)}
    case Test(NotEqual) => {Signature(FLAG, NUM, NUM, NoLiteral), Signature(FLAG, FLAG, FLAG, NoLiteral)}
    case Test(Less) => {Signature(FLAG, NUM, NUM, NoLiteral)}
    case Test(LessEqual) => {Signature(FLAG, NUM, NUM, NoLiteral)}
    case Test(Greater) => {Signature(FLAG, NUM, NUM, NoLiteral)}
    case Test(GreaterEqual) => {Signature(FLAG, NUM, NUM, NoLiteral)}
    case _ => {}
  }

  predicate StraightLine(op: Opcode) { SignaturesOf(op) != {} }

  /** Register r of the program, with this tag where the program declares tags. */
  predicate HasTag(p: Program, r: nat, tag: nat) {
    r < p.registerCount && (p.minor == 2 ==> r < |p.registerTypes| && p.registerTypes[r] == tag)
  }

  predicate FieldFits(p: Program, field: Field, x: nat) {
    match field
    case Unused => x == 0
    case Register(tag) => HasTag(p, x, tag)
  }

  predicate LiteralFits(fp: FloatModel, p: Program, literal: Literal, imm: Double) {
    match literal
    case NoLiteral => imm.bits == 0
    case FiniteNumber => fp.finite(imm)
    case ZeroOrOne => p.minor == 2 && (fp.isZero(imm) || imm.bits == 0x3FF0_0000_0000_0000)
  }

  predicate SignatureFits(fp: FloatModel, p: Program, ins: Instruction, s: Signature) {
    && FieldFits(p, s.a, ins.a) && FieldFits(p, s.b, ins.b) && FieldFits(p, s.c, ins.c)
    && LiteralFits(fp, p, s.literal, ins.imm)
  }

  predicate StraightFits(fp: FloatModel, p: Program, ins: Instruction) {
    exists s :: s in SignaturesOf(ins.op) && SignatureFits(fp, p, ins, s)
  }

  // ----- functions -----

  predicate Marked(p: Program, k: nat) { k < |p.code| && p.code[k].op.FunctionMark? }

  /** How many functions begin before position k. */
  function MarksBefore(code: seq<Instruction>, k: nat): nat
    requires k <= |code|
  {
    if k == 0 then 0 else MarksBefore(code, k - 1) + if code[k - 1].op.FunctionMark? then 1 else 0
  }

  /** A marker carries the number of its function, has the parameters inside the register file, and code behind it. */
  predicate MarkerFits(p: Program, m: nat) {
    && m + 1 < |p.code| && !Marked(p, m + 1)
    && p.code[m].a == MarksBefore(p.code, m) && p.code[m].b + p.code[m].c <= p.registerCount
  }

  /** Since version 1.1 the code begins with a marker, and there are at most 64. */
  ghost predicate Layout(p: Program) {
    p.minor >= 1 ==>
      && Marked(p, 0) && MarksBefore(p.code, |p.code|) <= 64
      && forall m: nat | Marked(p, m) :: MarkerFits(p, m)
  }

  /** In version 1.2 every register and every function has a tag, and the entry gives a number. */
  predicate Declared(p: Program) {
    p.minor == 2 ==>
      && |p.registerTypes| == p.registerCount && |p.returnTypes| == MarksBefore(p.code, |p.code|)
      && |p.returnTypes| > 0 && p.returnTypes[0] == 1
      && (forall r | 0 <= r < |p.registerTypes| :: p.registerTypes[r] == 1 || p.registerTypes[r] == 2)
      && (forall f | 0 <= f < |p.returnTypes| :: p.returnTypes[f] == 1 || p.returnTypes[f] == 2)
  }

  /** Code that begins at `start` goes on to x without a marker. */
  ghost predicate Body(p: Program, start: nat, x: nat) {
    start <= x < |p.code| && forall k | start <= k <= x :: !Marked(p, k)
  }

  /** x is an instruction of function f. */
  ghost predicate InFunction(p: Program, f: nat, x: nat) {
    exists m: nat :: Marked(p, m) && p.code[m].a == f && Body(p, m + 1, x)
  }

  /** Two positions with no marker at or between them; version 1.0 has none anywhere. */
  ghost predicate Together(p: Program, x: nat, y: nat) {
    x < |p.code| && y < |p.code| && (p.minor >= 1 ==> forall k: nat | x <= k <= y || y <= k <= x :: !Marked(p, k))
  }

  // ----- calls, branches, returns -----

  /** A call of the function marked at m. */
  ghost predicate CallsMarked(fp: FloatModel, p: Program, ins: Instruction, m: nat) {
    && Marked(p, m) && p.code[m].a == ins.b
    && fp.whole(ins.imm) == Some(p.code[m].c)
    && ins.a < p.registerCount && ins.c + p.code[m].c <= p.registerCount
    && (p.minor == 2 ==>
          && ins.a < |p.registerTypes| && ins.b < |p.returnTypes| && p.registerTypes[ins.a] == p.returnTypes[ins.b]
          && forall i | 0 <= i < p.code[m].c :: TagsAgree(p, ins.c, p.code[m].b, i))
  }

  predicate TagsAgree(p: Program, r: nat, s: nat, i: nat) {
    r + i < |p.registerTypes| && s + i < |p.registerTypes| && p.registerTypes[r + i] == p.registerTypes[s + i]
  }

  /** A value of register r is what the function around x returns. */
  ghost predicate Returnable(p: Program, x: nat, r: nat) {
    p.minor == 2 ==> exists f: nat :: InFunction(p, f, x) && f < |p.returnTypes| && HasTag(p, r, p.returnTypes[f])
  }

  ghost predicate InstructionFits(fp: FloatModel, p: Program, pc: nat)
    requires pc < |p.code|
  {
    var ins := p.code[pc];
    match ins.op
    case Jump => ins.b == 0 && ins.c == 0 && ins.imm.bits == 0 && Together(p, pc, ins.a)
    case JumpIfFalse => HasTag(p, ins.a, 2) && ins.c == 0 && ins.imm.bits == 0 && Together(p, pc, ins.b)
    case Return =>
      ins.a < p.registerCount && ins.b == 0 && ins.c == 0 && ins.imm.bits == 0 && Returnable(p, pc, ins.a)
    case FunctionMark => p.minor >= 1 && ins.imm.bits == 0
    case Call => p.minor >= 1 && exists m: nat :: CallsMarked(fp, p, ins, m)
    case _ => StraightFits(fp, p, ins)
  }

  // ----- whole programs -----

  ghost predicate FunctionCalls(p: Program, f: nat, g: nat) {
    exists pc: nat :: CallsAt(p, f, g, pc)
  }

  ghost predicate CallsAt(p: Program, f: nat, g: nat, pc: nat) {
    InFunction(p, f, pc) && p.code[pc].op.Call? && p.code[pc].b == g
  }

  /** Functions each of which calls the next, back to the first. */
  ghost predicate Circle(p: Program, path: seq<nat>) {
    && |path| >= 2 && path[0] == path[|path| - 1]
    && forall i, j | 0 <= i < j < |path| && j == i + 1 :: FunctionCalls(p, path[i], path[j])
  }

  ghost predicate Recursive(p: Program) { exists path :: Circle(p, path) }

  /** Control can go from x to y inside a function. */
  predicate Goes(p: Program, x: nat, y: nat)
    requires x < |p.code|
  {
    match p.code[x].op
    case Return => false
    case Jump => y == p.code[x].a
    case JumpIfFalse => y == p.code[x].b || y == x + 1
    case _ => y == x + 1
  }

  ghost predicate Trail(p: Program, start: nat, trail: seq<nat>) {
    && |trail| > 0 && trail[0] == start && (forall i | 0 <= i < |trail| :: trail[i] < |p.code|)
    && forall i, j | 0 <= i < j < |trail| && j == i + 1 :: Goes(p, trail[i], trail[j])
  }

  ghost predicate Reaches(p: Program, start: nat, x: nat) {
    exists trail :: Trail(p, start, trail) && trail[|trail| - 1] == x
  }

  /** The instruction behind x, where control may go on to, is not there or belongs to the next function. */
  predicate FallsOff(p: Program, x: nat)
    requires x < |p.code|
  {
    !p.code[x].op.Jump? && !p.code[x].op.Return? && (x + 1 == |p.code| || Marked(p, x + 1))
  }

  /** Code that begins at `start` never runs off its end, and can come to a RETURN. */
  ghost predicate Flows(p: Program, start: nat) {
    && (forall x: nat | Reaches(p, start, x) && x < |p.code| :: !FallsOff(p, x))
    && exists x: nat :: Reaches(p, start, x) && x < |p.code| && p.code[x].op.Return?
  }

  /** Where functions begin: behind the markers; in version 1.0 at the first instruction. */
  predicate Begins(p: Program, start: nat) {
    if p.minor >= 1 then start > 0 && Marked(p, start - 1) else start == 0
  }

  ghost predicate WellMade(fp: FloatModel, p: Program) {
    && p.minor <= 2 && 1 <= p.registerCount <= 256 && 1 <= |p.code| <= 65536
    && Layout(p) && Declared(p)
    && (forall pc | 0 <= pc < |p.code| :: InstructionFits(fp, p, pc))
    && !Recursive(p)
    && forall start: nat | Begins(p, start) :: Flows(p, start)
  }

  // ----- the table of functions -----

  /** Markers are listed under the number of markers before them. */
  lemma {:induction false} MarkersCount(code: seq<Instruction>, from: nat)
    requires from <= |code|
    ensures var ms := Markers(code, from);
            && |ms| == MarksBefore(code, |code|) - MarksBefore(code, from)
            && forall i | 0 <= i < |ms| :: ms[i] <= |code| && MarksBefore(code, ms[i]) == MarksBefore(code, from) + i
    decreases |code| - from
  {
    if from < |code| {
      MarkersCount(code, from + 1);
      var rest := Markers(code, from + 1);
      if code[from].op.FunctionMark? {
        assert Markers(code, from) == [from] + rest;
      } else {
        assert Markers(code, from) == rest;
      }
    }
  }

  lemma {:induction false} MarkerIndex(p: Program, ms: seq<nat>)
    requires ms == Markers(p.code, 0)
    ensures |ms| == MarksBefore(p.code, |p.code|)
    ensures forall i | 0 <= i < |ms| :: Marked(p, ms[i]) && MarksBefore(p.code, ms[i]) == i
    ensures forall m: nat | Marked(p, m) :: MarksBefore(p.code, m) < |ms| && ms[MarksBefore(p.code, m)] == m
    ensures Ascending(ms)
  {
    MarkersCorrect(p.code, 0);
    MarkersCount(p.code, 0);
    forall i | 0 <= i < |ms|
      ensures Marked(p, ms[i])
    {
      assert ms[i] in ms;
    }
    forall m: nat | Marked(p, m)
      ensures MarksBefore(p.code, m) < |ms| && ms[MarksBefore(p.code, m)] == m
    {
      assert m in ms;
    }
  }

  lemma {:induction false} LayoutIff(p: Program)
    requires |p.code| > 0
    ensures TableStatus(p) == Ok <==> Layout(p)
  {
    if p.minor >= 1 {
      var ms := Markers(p.code, 0);
      MarkerIndex(p, ms);
      MarkersStart(p, ms);
      if TableStatus(p) == Ok { CheckedLayout(p, ms); }
      if Layout(p) { LayoutChecks(p, ms); }
    }
  }

  lemma {:induction false} LaterMarks(ms: seq<nat>, i: nat)
    requires Ascending(ms) && i < |ms|
    ensures forall j | 0 <= j < |ms| :: ms[j] <= ms[i] || (i + 1 < |ms| && ms[i + 1] <= ms[j])
  {
  }

  lemma {:induction false} CheckedLayout(p: Program, ms: seq<nat>)
    requires |p.code| > 0 && p.minor >= 1 && ms == Markers(p.code, 0) && TableStatus(p) == Ok
    ensures Layout(p)
  {
    MarkerIndex(p, ms);
    MarkersStart(p, ms);
    forall m: nat | Marked(p, m)
      ensures MarkerFits(p, m)
    {
      var i := MarksBefore(p.code, m);
      assert MarkerOk(p, ms, i);
      assert Table(p)[i].start < Table(p)[i].end;
      LaterMarks(ms, i);
    }
    assert MarkerOk(p, ms, |ms| - 1);
  }

  lemma {:induction false} LayoutChecks(p: Program, ms: seq<nat>)
    requires |p.code| > 0 && p.minor >= 1 && ms == Markers(p.code, 0) && Layout(p)
    ensures TableStatus(p) == Ok
  {
    MarkerIndex(p, ms);
    MarkersStart(p, ms);
    forall i | 0 <= i < |ms|
      ensures MarkerOk(p, ms, i) && Table(p)[i].start < Table(p)[i].end
    {
      assert MarkerFits(p, ms[i]);
      if i + 1 < |ms| { assert Marked(p, ms[i + 1]); }
    }
  }

  /** What has been established before single instructions are looked at. */
  ghost predicate Mapped(p: Program) {
    |p.code| > 0 && TableStatus(p) == Ok && Layout(p) && Tiled(p, Table(p)) && BasesOk(p, Table(p))
  }

  ghost predicate Unmarked(p: Program) { p.minor < 1 ==> forall k: nat :: !Marked(p, k) }

  /** Function f of the table as the markers tell it. */
  lemma {:induction false} TableAt(p: Program, f: nat)
    requires Mapped(p) && p.minor >= 1 && f < |Table(p)|
    ensures var m := Table(p)[f].start - 1;
            && Marked(p, m) && p.code[m].a == f && MarksBefore(p.code, m) == f
            && Table(p)[f].base == p.code[m].b && Table(p)[f].arity == p.code[m].c
            && Table(p)[f].returnTag == if p.minor == TYPED_MINOR && f < |p.returnTypes| then p.returnTypes[f] else 0
    ensures |Table(p)| == MarksBefore(p.code, |p.code|)
  {
    MarkerIndex(p, Markers(p.code, 0));
    assert MarkerFits(p, Markers(p.code, 0)[f]);
  }

  lemma {:induction false} MarkedAt(p: Program, m: nat)
    requires Mapped(p) && p.minor >= 1 && Marked(p, m)
    ensures var f := p.code[m].a; f < |Table(p)| && Table(p)[f].start == m + 1
  {
    MarkerIndex(p, Markers(p.code, 0));
    assert MarkerFits(p, m);
  }

  /** The part of the code that the table gives to a function is its body. */
  lemma {:induction false} BodyIs(p: Program, f: nat, x: nat)
    requires Mapped(p) && Unmarked(p) && f < |Table(p)|
    ensures Table(p)[f].start <= x < Table(p)[f].end <==> Body(p, Table(p)[f].start, x)
  {
    if p.minor >= 1 {
      var ms := Markers(p.code, 0);
      MarkerIndex(p, ms);
      assert Table(p)[f] == InfoAt(p, ms, f);
      if ms[f] < x < Table(p)[f].end {
        LaterMarks(ms, f);
      }
      if Body(p, ms[f] + 1, x) && f + 1 < |ms| { assert Marked(p, ms[f + 1]) && ms[f] < ms[f + 1]; }
    }
  }

  /** An instruction that is no marker is in the body of the function that owns it, and in no other. */
  lemma {:induction false} OwnerBody(p: Program, f: nat, x: nat)
    requires Mapped(p) && Unmarked(p) && f < |Table(p)| && x < |p.code|
    ensures OwnerOf(Table(p), x) == f && !Marked(p, x) <==> Body(p, Table(p)[f].start, x)
  {
    OwnerIs(p, Table(p), f, x);
    BodyIs(p, f, x);
    if p.minor >= 1 { TableAt(p, f); }
  }

  lemma {:induction false} OwnerFunction(p: Program, f: nat, x: nat)
    requires Mapped(p) && p.minor >= 1 && x < |p.code| && !Marked(p, x)
    ensures InFunction(p, f, x) <==> OwnerOf(Table(p), x) == f
  {
    if InFunction(p, f, x) {
      var m: nat :| Marked(p, m) && p.code[m].a == f && Body(p, m + 1, x);
      MarkedAt(p, m);
      OwnerBody(p, f, x);
    }
    if OwnerOf(Table(p), x) == f {
      OwnerBody(p, f, x);
      TableAt(p, f);
    }
  }

  lemma {:induction false} TogetherIs(p: Program, x: nat, y: nat)
    requires Mapped(p) && x < |p.code| && !Marked(p, x) && y < |p.code|
    ensures Together(p, x, y) <==> (p.minor >= 1 ==> OwnerOf(Table(p), y) == OwnerOf(Table(p), x) && !Marked(p, y))
  {
    if p.minor >= 1 {
      var f := OwnerOf(Table(p), x);
      OwnerBody(p, f, x);
      OwnerBody(p, f, y);
      TableAt(p, f);
    }
  }

  // ----- single instructions -----

  /** The checks of the verifier on a straight-line instruction amount to one of its signatures. */
  lemma {:induction false} StraightIff(fp: FloatModel, p: Program, pc: nat)
    requires pc < |p.code| && BasesOk(p, Table(p)) && Declared(p) && StraightLine(p.code[pc].op)
    ensures InstructionOk(fp, p, pc) <==> StraightFits(fp, p, p.code[pc])
  {
    var ins := p.code[pc];
    assert forall d: Double :: d == ZERO <==> d.bits == 0;
    assert forall d: Double :: d == ONE <==> d.bits == 0x3FF0_0000_0000_0000;
  }

  lemma {:induction false} BranchIff(fp: FloatModel, p: Program, pc: nat)
    requires pc < |p.code| && Mapped(p) && Declared(p) && (p.code[pc].op.Jump? || p.code[pc].op.JumpIfFalse?)
    ensures InstructionOk(fp, p, pc) <==> InstructionFits(fp, p, pc)
  {
    var ins := p.code[pc];
    var target := if ins.op.Jump? then ins.a else ins.b;
    if target < |p.code| { TogetherIs(p, pc, target); }
    assert ins.imm == ZERO <==> ins.imm.bits == 0;
  }

  lemma {:induction false} ReturnIff(fp: FloatModel, p: Program, pc: nat)
    requires pc < |p.code| && Mapped(p) && Declared(p) && p.code[pc].op.Return?
    ensures InstructionOk(fp, p, pc) <==> InstructionFits(fp, p, pc)
  {
    var ins := p.code[pc];
    assert ins.imm == ZERO <==> ins.imm.bits == 0;
    if p.minor == 2 {
      var f := OwnerOf(Table(p), pc);
      OwnerFunction(p, f, pc);
      TableAt(p, f);
      if Returnable(p, pc, ins.a) {
        var g: nat :| InFunction(p, g, pc) && g < |p.returnTypes| && HasTag(p, ins.a, p.returnTypes[g]);
        OwnerFunction(p, g, pc);
      }
    }
  }

  lemma {:induction false} MarkIff(fp: FloatModel, p: Program, pc: nat)
    requires pc < |p.code| && Mapped(p) && Declared(p) && p.code[pc].op.FunctionMark?
    ensures InstructionOk(fp, p, pc) <==> InstructionFits(fp, p, pc)
  {
    var ins := p.code[pc];
    assert ins.imm == ZERO <==> ins.imm.bits == 0;
    assert Marked(p, pc);
    if p.minor >= 1 {
      MarkedAt(p, pc);
      TableAt(p, ins.a);
      assert MarkerFits(p, pc);
    }
  }

  lemma {:induction false} CallIff(fp: FloatModel, p: Program, pc: nat)
    requires pc < |p.code| && Mapped(p) && Declared(p) && p.code[pc].op.Call?
    ensures InstructionOk(fp, p, pc) <==> InstructionFits(fp, p, pc)
  {
    var ins := p.code[pc];
    if p.minor >= 1 {
      if ins.b < |Table(p)| {
        TableAt(p, ins.b);
        var m := Table(p)[ins.b].start - 1;
        CallOfIff(fp, p, pc, m);
      }
      if m: nat :| CallsMarked(fp, p, ins, m) {
        MarkedAt(p, m);
      }
    }
  }

  lemma {:induction false} CallOfIff(fp: FloatModel, p: Program, pc: nat, m: nat)
    requires pc < |p.code| && Mapped(p) && Declared(p) && p.code[pc].op.Call? && p.minor >= 1
    requires p.code[pc].b < |Table(p)| && Marked(p, m) && m + 1 == Table(p)[p.code[pc].b].start
    ensures InstructionOk(fp, p, pc) <==> CallsMarked(fp, p, p.code[pc], m)
  {
    var ins := p.code[pc];
    TableAt(p, ins.b);
    assert MarkerFits(p, m);
    assert forall i | 0 <= i < p.code[m].c :: TagsAgree(p, ins.c, p.code[m].b, i) <==> SameTag(p.registerTypes, ins.c, p.code[m].b, i);
  }

  /** The checks of the verifier on one instruction amount to what is asked of it here. */
  lemma {:induction false} InstructionIff(fp: FloatModel, p: Program, pc: nat)
    requires pc < |p.code| && Mapped(p) && Declared(p)
    ensures InstructionOk(fp, p, pc) <==> InstructionFits(fp, p, pc)
  {
    match p.code[pc].op
    case Jump => BranchIff(fp, p, pc);
    case JumpIfFalse => BranchIff(fp, p, pc);
    case Return => ReturnIff(fp, p, pc);
    case FunctionMark => MarkIff(fp, p, pc);
    case Call => CallIff(fp, p, pc);
    case _ =>
      if StraightLine(p.code[pc].op) { StraightIff(fp, p, pc); }
  }

  // ----- calls -----

  ghost predicate AllFit(fp: FloatModel, p: Program) {
    forall pc | 0 <= pc < |p.code| :: InstructionFits(fp, p, pc)
  }

  lemma {:induction false} CallIsEdge(fp: FloatModel, p: Program, f: nat, g: nat, pc: nat)
    requires Mapped(p) && AllFit(fp, p) && CallsAt(p, f, g, pc)
    ensures f < |Table(p)| && g < |Table(p)| && g in Callees(p, Table(p), f)
  {
    assert InstructionFits(fp, p, pc);
    OwnerFunction(p, f, pc);
    var m: nat :| CallsMarked(fp, p, p.code[pc], m);
    MarkedAt(p, m);
  }

  lemma {:induction false} EdgeIsCall(fp: FloatModel, p: Program, f: nat, g: nat)
    requires Mapped(p) && AllFit(fp, p) && f < |Table(p)| && g in Callees(p, Table(p), f)
    ensures FunctionCalls(p, f, g)
  {
    var pc: nat :| pc < |p.code| && p.code[pc].op.Call? && OwnerOf(Table(p), pc) == f && p.code[pc].b == g;
    assert InstructionFits(fp, p, pc);
    OwnerFunction(p, f, pc);
    assert CallsAt(p, f, g, pc);
  }

  lemma {:induction false} EdgeIff(fp: FloatModel, p: Program, f: nat, g: nat)
    requires Mapped(p) && AllFit(fp, p)
    ensures FunctionCalls(p, f, g) <==> f < |Table(p)| && g in CallEdges(p, Table(p))[f]
    ensures FunctionCalls(p, f, g) ==> g < |Table(p)|
  {
    if pc: nat :| CallsAt(p, f, g, pc) { CallIsEdge(fp, p, f, g, pc); }
    if f < |Table(p)| && g in Callees(p, Table(p), f) { EdgeIsCall(fp, p, f, g); }
  }

  lemma {:induction false} RecursionIff(fp: FloatModel, p: Program)
    requires Mapped(p) && AllFit(fp, p)
    ensures Ranked(CallEdges(p, Table(p))) <==> !Recursive(p)
  {
    var graph := CallEdges(p, Table(p));
    forall f, g | 0 <= f < |graph| && g in graph[f]
      ensures g < |graph|
    {
      EdgeIff(fp, p, f, g);
    }
    RankedIffAcyclic(graph);
    if HasCycle(graph) {
      var path :| IsCycle(graph, path);
      forall i, j | 0 <= i < j < |path| && j == i + 1
        ensures FunctionCalls(p, path[i], path[j])
      {
        EdgeIff(fp, p, path[i], path[j]);
      }
      assert Circle(p, path);
    }
    if Recursive(p) {
      var path :| Circle(p, path);
      forall i, j | 0 <= i < j < |path| && j == i + 1
        ensures path[i] < |graph| && path[j] in graph[path[i]]
      {
        assert FunctionCalls(p, path[i], path[j]);
        EdgeIff(fp, p, path[i], path[j]);
      }
      forall i | 0 <= i < |path|
        ensures path[i] < |graph|
      {
        if i + 1 < |path| { assert FunctionCalls(p, path[i], path[i + 1]); }
        assert FunctionCalls(p, path[0], path[1]);
      }
      assert IsCycle(graph, path);
    }
  }

  // ----- control flow -----

  /** Walks and trails are the same. */
  lemma {:induction false} WalkIsTrail(p: Program, start: nat, walk: seq<nat>)
    ensures IsWalk(p, start, walk) <==> Trail(p, start, walk)
  {
    if IsWalk(p, start, walk) {
      forall i, j | 0 <= i < j < |walk| && j == i + 1
        ensures Goes(p, walk[i], walk[j])
      {
        assert Follows(p, walk, j);
      }
    }
    if Trail(p, start, walk) {
      forall i | 0 < i < |walk|
        ensures Follows(p, walk, i)
      {
        assert Goes(p, walk[i - 1], walk[i]);
      }
    }
  }

  lemma {:induction false} ReachesIff(p: Program, start: nat, x: nat)
    ensures Reachable(p, start, x) <==> Reaches(p, start, x)
  {
    if walk :| IsWalk(p, start, walk) && walk[|walk| - 1] == x { WalkIsTrail(p, start, walk); }
    if trail :| Trail(p, start, trail) && trail[|trail| - 1] == x { WalkIsTrail(p, start, trail); }
  }

  /** A branch that stays in one piece with its target stays in the body. */
  lemma {:induction false} StaysInBody(p: Program, start: nat, x: nat, y: nat)
    requires Unmarked(p) && Body(p, start, x) && Together(p, x, y) && (start == 0 || Marked(p, start - 1))
    ensures Body(p, start, y)
  {
  }

  /** Where one step inside a body leads to. */
  lemma {:induction false} GoesInside(fp: FloatModel, p: Program, start: nat, x: nat, y: nat)
    requires AllFit(fp, p) && Unmarked(p) && Body(p, start, x) && (start == 0 || Marked(p, start - 1)) && !FallsOff(p, x) && Goes(p, x, y)
    ensures Body(p, start, y)
  {
    assert InstructionFits(fp, p, x);
    if p.code[x].op.Jump? || (p.code[x].op.JumpIfFalse? && y == p.code[x].b) {
      StaysInBody(p, start, x, y);
    } else {
      assert y == x + 1;
    }
  }

  lemma {:induction false} TrailInside(fp: FloatModel, p: Program, start: nat, trail: seq<nat>)
    requires AllFit(fp, p) && Unmarked(p) && Body(p, start, start)
    requires (start == 0 || Marked(p, start - 1)) && Trail(p, start, trail)
    requires forall x: nat | Reaches(p, start, x) && x < |p.code| :: !FallsOff(p, x)
    ensures Body(p, start, trail[|trail| - 1])
    decreases |trail|
  {
    var n := |trail| - 1;
    if n > 0 {
      var before := trail[..n];
      TrailInside(fp, p, start, before);
      assert Trail(p, start, before) && before[|before| - 1] == trail[n - 1];
      assert Reaches(p, start, trail[n - 1]);
      GoesInside(fp, p, start, trail[n - 1], trail[n]);
    }
  }

  lemma {:induction false} StartIs(p: Program, f: nat)
    requires Mapped(p) && Unmarked(p) && f < |Table(p)|
    ensures var start := Table(p)[f].start; Begins(p, start) && Body(p, start, start) && (start == 0 || Marked(p, start - 1))
  {
    if p.minor >= 1 { TableAt(p, f); }
    BodyIs(p, f, Table(p)[f].start);
  }

  lemma {:induction false} FlowsKeep(fp: FloatModel, p: Program, f: nat, x: nat)
    requires Mapped(p) && Unmarked(p) && AllFit(fp, p) && f < |Table(p)| && Flows(p, Table(p)[f].start)
    requires Reaches(p, Table(p)[f].start, x)
    ensures FlowOk(p, Table(p), f, x)
  {
    var start := Table(p)[f].start;
    StartIs(p, f);
    var trail :| Trail(p, start, trail) && trail[|trail| - 1] == x;
    TrailInside(fp, p, start, trail);
    OwnerBody(p, f, x);
    assert !FallsOff(p, x);
    if !p.code[x].op.Jump? && !p.code[x].op.Return? {
      BodyIs(p, f, x + 1);
    }
    forall to | to in Successors(p, x)
      ensures to < |p.code| && OwnerOf(Table(p), to) == f
    {
      GoesInside(fp, p, start, x, to);
      OwnerBody(p, f, to);
    }
  }

  lemma {:induction false} FlowsIff(fp: FloatModel, p: Program, f: nat)
    requires Mapped(p) && Unmarked(p) && AllFit(fp, p) && f < |Table(p)|
    ensures FlowsOk(p, Table(p), f) <==> Flows(p, Table(p)[f].start)
  {
    var fns := Table(p);
    var start := fns[f].start;
    forall x: nat
      ensures Reachable(p, start, x) <==> Reaches(p, start, x)
    {
      ReachesIff(p, start, x);
    }
    if FlowsOk(p, fns, f) {
      forall x: nat | Reaches(p, start, x) && x < |p.code|
        ensures !FallsOff(p, x)
      {
        assert FlowOk(p, fns, f, x);
        OwnerBody(p, f, x);
        BodyIs(p, f, x + 1);
      }
    }
    if Flows(p, start) {
      forall x | Reachable(p, start, x)
        ensures FlowOk(p, fns, f, x)
      {
        FlowsKeep(fp, p, f, x);
      }
    }
  }

  lemma {:induction false} AllFlowsIff(fp: FloatModel, p: Program)
    requires Mapped(p) && Unmarked(p) && AllFit(fp, p)
    ensures AllFlowsOk(p, Table(p)) <==> forall start: nat | Begins(p, start) :: Flows(p, start)
  {
    forall f: nat | f < |Table(p)|
      ensures Begins(p, Table(p)[f].start) && (FlowsOk(p, Table(p), f) <==> Flows(p, Table(p)[f].start))
    {
      StartIs(p, f);
      FlowsIff(fp, p, f);
    }
    forall start: nat | Begins(p, start)
      ensures exists f: nat :: f < |Table(p)| && Table(p)[f].start == start
    {
      if p.minor >= 1 {
        MarkedAt(p, start - 1);
      } else {
        assert Table(p)[0].start == start;
      }
    }
  }

  // ----- the theorem -----

  lemma {:induction false} DeclaredIff(p: Program)
    requires Mapped(p)
    ensures (p.minor == 2 ==> TagsOk(p)) <==> Declared(p)
  {
    if p.minor == 2 { MarkerIndex(p, Markers(p.code, 0)); }
  }

  lemma {:induction false} MapsIt(p: Program)
    requires |p.code| > 0 && TableStatus(p) == Ok
    ensures Mapped(p)
  {
    LayoutIff(p);
    TableFacts(p);
  }

  lemma {:induction false} FitsUnmarked(fp: FloatModel, p: Program)
    requires AllFit(fp, p)
    ensures Unmarked(p)
  {
    forall k: nat | p.minor < 1
      ensures !Marked(p, k)
    {
      assert k < |p.code| ==> InstructionFits(fp, p, k);
    }
  }

  /** The verifier accepts a program exactly if it is well made. */
  lemma {:induction false} AcceptsIff(fp: FloatModel, p: Program)
    ensures VerifyStatus(fp, p) == Ok <==> WellMade(fp, p)
  {
    AcceptedIff(fp, p);
    if |p.code| > 0 {
      LayoutIff(p);
      if Accepted(fp, p) { AcceptedIsWellMade(fp, p); }
      if WellMade(fp, p) { WellMadeIsAccepted(fp, p); }
    }
  }

  lemma {:induction false} AcceptedIsWellMade(fp: FloatModel, p: Program)
    requires Accepted(fp, p)
    ensures WellMade(fp, p)
  {
    MapsIt(p);
    DeclaredIff(p);
    forall pc | 0 <= pc < |p.code|
      ensures InstructionFits(fp, p, pc)
    {
      InstructionIff(fp, p, pc);
    }
    FitsUnmarked(fp, p);
    RecursionIff(fp, p);
    AllFlowsIff(fp, p);
  }

  lemma {:induction false} WellMadeIsAccepted(fp: FloatModel, p: Program)
    requires WellMade(fp, p)
    ensures Accepted(fp, p)
  {
    LayoutIff(p);
    TableFacts(p);
    DeclaredIff(p);
    FitsUnmarked(fp, p);
    forall pc | 0 <= pc < |p.code|
      ensures InstructionOk(fp, p, pc)
    {
      InstructionIff(fp, p, pc);
    }
    RecursionIff(fp, p);
    AllFlowsIff(fp, p);
  }

  // ----- which complaint -----

  /** An instruction of version 1.2 has its operands in order if it would fit in version 1.1, where no tags are declared;
      only version 1.2 has CONST_BOOL. */
  ghost predicate OperandsFit(fp: FloatModel, p: Program, pc: nat)
    requires pc < |p.code|
  {
    var ins := p.code[pc];
    if p.minor == 2 && ins.op.ConstBool? then
      ins.a < p.registerCount && ins.b == 0 && ins.c == 0 && LiteralFits(fp, p, ZeroOrOne, ins.imm)
    else
      InstructionFits(fp, if p.minor == 2 then p.(minor := 1) else p, pc)
  }

  lemma {:induction false} SameOwners(fns: seq<Info>, others: seq<Info>, x: nat)
    requires |fns| == |others| > 0 && forall f | 0 <= f < |fns| :: fns[f].start == others[f].start
    ensures OwnerOf(fns, x) == OwnerOf(others, x)
    decreases |fns|
  {
    var n := |fns| - 1;
    if n > 0 { SameOwners(fns[..n], others[..n], x); }
  }

  lemma {:induction false} WithoutTags(p: Program, q: Program)
    requires Mapped(p) && p.minor == 2 && q == p.(minor := 1)
    ensures Mapped(q) && Declared(q) && |Table(q)| == |Table(p)|
    ensures forall f | 0 <= f < |Table(p)| :: Table(q)[f] == Table(p)[f].(returnTag := 0)
  {
    forall m: nat | Marked(q, m)
      ensures MarkerFits(q, m)
    {
      assert MarkerFits(p, m);
    }
    LayoutIff(q);
    TableFacts(q);
    MarkersStart(p, Markers(p.code, 0));
    MarkersStart(q, Markers(q.code, 0));
  }

  lemma {:induction false} OperandsIff(fp: FloatModel, p: Program, pc: nat)
    requires pc < |p.code| && Mapped(p) && Declared(p) && p.minor <= 2
    ensures OperandsOk(fp, p, Table(p), pc) <==> OperandsFit(fp, p, pc)
  {
    var ins := p.code[pc];
    assert ins.imm == ONE <==> ins.imm.bits == 0x3FF0_0000_0000_0000;
    if p.minor == 2 && !ins.op.ConstBool? {
      var q := p.(minor := 1);
      WithoutTags(p, q);
      InstructionIff(fp, q, pc);
      OperandsSame(fp, p, q, pc);
    } else if p.minor < 2 {
      InstructionIff(fp, p, pc);
    }
  }

  lemma {:induction false} OperandsSame(fp: FloatModel, p: Program, q: Program, pc: nat)
    requires pc < |p.code| && Mapped(p) && p.minor == 2 && q == p.(minor := 1) && |Table(q)| == |Table(p)|
    requires forall f | 0 <= f < |Table(p)| :: Table(q)[f] == Table(p)[f].(returnTag := 0)
    requires !p.code[pc].op.ConstBool?
    ensures OperandsOk(fp, p, Table(p), pc) <==> OperandsOk(fp, q, Table(q), pc)
  {
    SameOperands(fp, p, q, Table(p), Table(q), pc);
  }

  lemma {:induction false} SameOperands(fp: FloatModel, p: Program, q: Program, fns: seq<Info>, others: seq<Info>, pc: nat)
    requires pc < |p.code| && p.minor == 2 && q == p.(minor := 1) && |fns| == |others| > 0
    requires forall f | 0 <= f < |fns| :: others[f] == fns[f].(returnTag := 0)
    requires !p.code[pc].op.ConstBool?
    ensures OperandsOk(fp, p, fns, pc) <==> OperandsOk(fp, q, others, pc)
  {
    var ins := p.code[pc];
    assert forall f | 0 <= f < |fns| :: others[f].start == fns[f].start;
    SameOwners(fns, others, pc);
    if ins.op.Jump? { SameOwners(fns, others, ins.a); }
    if ins.op.JumpIfFalse? { SameOwners(fns, others, ins.b); }
  }

  /** The first instruction that does not fit. */
  ghost predicate FirstMisfit(fp: FloatModel, p: Program, pc: nat) {
    pc < |p.code| && !InstructionFits(fp, p, pc) && forall k | 0 <= k < pc :: InstructionFits(fp, p, k)
  }

  lemma {:induction false} FirstStatus(fp: FloatModel, p: Program, from: nat, pc: nat)
    requires from <= pc < |p.code| && BasesOk(p, Table(p)) && (p.minor == TYPED_MINOR ==> |p.registerTypes| == p.registerCount)
    requires InstructionStatus(fp, p, Table(p), pc) != Ok
    requires forall k | from <= k < pc :: InstructionStatus(fp, p, Table(p), k) == Ok
    ensures CodeStatus(fp, p, Table(p), from) == InstructionStatus(fp, p, Table(p), pc)
    decreases pc - from
  {
    if from < pc { FirstStatus(fp, p, from + 1, pc); }
  }

  lemma {:induction false} InstructionStatusIs(fp: FloatModel, p: Program, pc: nat)
    requires pc < |p.code| && Mapped(p) && Declared(p) && p.minor <= 2
    ensures InstructionStatus(fp, p, Table(p), pc)
         == if InstructionFits(fp, p, pc) then Ok else if p.code[pc].op.Unknown? then BadOpcode
            else if OperandsFit(fp, p, pc) then BadType else BadOperand
  {
    InstructionIff(fp, p, pc);
    OperandsIff(fp, p, pc);
  }

  /** What the verifier answers about a program whose size, markers and tags are in order: the first instruction that does
      not fit decides, and then calls and control flow. */
  lemma {:induction false} StatusIs(fp: FloatModel, p: Program)
    requires p.minor <= 2 && 1 <= p.registerCount <= 256 && 1 <= |p.code| <= 65536 && Layout(p) && Declared(p)
    ensures AllFit(fp, p) ==> VerifyStatus(fp, p) == if WellMade(fp, p) then Ok else BadControlFlow
    ensures forall pc: nat | FirstMisfit(fp, p, pc) ::
              VerifyStatus(fp, p) == if p.code[pc].op.Unknown? then BadOpcode
                                     else if OperandsFit(fp, p, pc) then BadType else BadOperand
  {
    LayoutIff(p);
    TableFacts(p);
    DeclaredIff(p);
    AcceptsIff(fp, p);
    forall pc: nat | pc < |p.code|
      ensures InstructionStatus(fp, p, Table(p), pc)
           == if InstructionFits(fp, p, pc) then Ok else if p.code[pc].op.Unknown? then BadOpcode
              else if OperandsFit(fp, p, pc) then BadType else BadOperand
    {
      InstructionStatusIs(fp, p, pc);
    }
    forall pc: nat | FirstMisfit(fp, p, pc)
      ensures CodeStatus(fp, p, Table(p), 0) == InstructionStatus(fp, p, Table(p), pc)
    {
      FirstStatus(fp, p, 0, pc);
    }
  }

  /** What the verifier answers before it looks at single instructions. */
  lemma {:induction false} HeaderStatusIs(fp: FloatModel, p: Program)
    ensures p.minor > 2 ==> VerifyStatus(fp, p) == BadVersion
    ensures p.minor <= 2 && !(1 <= p.registerCount <= 256 && 1 <= |p.code| <= 65536) ==> VerifyStatus(fp, p) == LimitExceeded
    ensures p.minor <= 2 && 1 <= p.registerCount <= 256 && 1 <= |p.code| <= 65536 ==>
              && (p.minor >= 1 && !Marked(p, 0) ==> VerifyStatus(fp, p) == BadFormat)
              && (p.minor >= 1 && Marked(p, 0) && !NumbersFit(p) ==> VerifyStatus(fp, p) == BadOperand)
              && (p.minor >= 1 && Marked(p, 0) && NumbersFit(p) && !Layout(p) ==> VerifyStatus(fp, p) == BadControlFlow)
              && (Layout(p) && !Declared(p) ==> VerifyStatus(fp, p) == BadFormat)
  {
    if p.minor <= 2 && 1 <= |p.code| {
      LayoutIff(p);
      if p.minor >= 1 {
        MarkerIndex(p, Markers(p.code, 0));
        if Marked(p, 0) { NumbersIff(p, Markers(p.code, 0)); }
      }
      if Layout(p) && p.minor == 2 { TagsOkIff(p); }
    }
  }

  /** At most 64 markers, numbered in order, with the parameters inside the register file. */
  ghost predicate NumbersFit(p: Program) {
    && MarksBefore(p.code, |p.code|) <= 64
    && forall m: nat | Marked(p, m) ::
         p.code[m].a == MarksBefore(p.code, m) && p.code[m].b + p.code[m].c <= p.registerCount
  }

  lemma {:induction false} NumbersIff(p: Program, ms: seq<nat>)
    requires ms == Markers(p.code, 0) && Marked(p, 0)
    ensures MarkersOk(p, ms) <==> NumbersFit(p)
  {
    MarkerIndex(p, ms);
    if MarkersOk(p, ms) {
      assert MarkerOk(p, ms, |ms| - 1);
      forall m: nat | Marked(p, m)
        ensures p.code[m].a == MarksBefore(p.code, m) && p.code[m].b + p.code[m].c <= p.registerCount
      {
        assert MarkerOk(p, ms, MarksBefore(p.code, m));
      }
    }
  }

  lemma {:induction false} TagsOkIff(p: Program)
    requires p.minor == 2 && |p.code| > 0 && Layout(p)
    ensures TagsOk(p) <==> Declared(p)
  {
    MarkerIndex(p, Markers(p.code, 0));
  }

  // ----- one instruction for another -----

  function Replaced(p: Program, k: nat, ins: Instruction): Program
    requires k < |p.code|
  {
    p.(code := p.code[k := ins])
  }

  lemma {:induction false} SameMarks(p: Program, q: Program, k: nat)
    requires |p.code| == |q.code| && k <= |p.code|
    requires forall i | 0 <= i < |p.code| :: p.code[i].op.FunctionMark? == q.code[i].op.FunctionMark?
    ensures MarksBefore(p.code, k) == MarksBefore(q.code, k)
    decreases k
  {
    if k > 0 { SameMarks(p, q, k - 1); }
  }

  /** Two programs that differ at position k only, where both have a straight-line instruction. */
  ghost predicate Alike(p: Program, q: Program, k: nat) {
    && k < |p.code| && q.minor == p.minor && q.registerCount == p.registerCount
    && q.registerTypes == p.registerTypes && q.returnTypes == p.returnTypes && |q.code| == |p.code|
    && StraightLine(p.code[k].op) && StraightLine(q.code[k].op)
    && forall i | 0 <= i < |p.code| && i != k :: q.code[i] == p.code[i]
  }

  lemma {:induction false} AlikeMarks(p: Program, q: Program, k: nat)
    requires Alike(p, q, k)
    ensures forall i: nat :: Marked(p, i) <==> Marked(q, i)
    ensures forall i: nat | i <= |p.code| :: MarksBefore(p.code, i) == MarksBefore(q.code, i)
    ensures forall f: nat, x: nat :: InFunction(p, f, x) <==> InFunction(q, f, x)
    ensures forall x: nat, y: nat :: Together(p, x, y) <==> Together(q, x, y)
  {
    forall i: nat | i <= |p.code|
      ensures MarksBefore(p.code, i) == MarksBefore(q.code, i)
    {
      SameMarks(p, q, i);
    }
    assert forall i: nat :: Marked(p, i) <==> Marked(q, i);
    forall start: nat, x: nat
      ensures Body(p, start, x) <==> Body(q, start, x)
    {
    }
  }

  lemma {:induction false} AlikeLayout(p: Program, q: Program, k: nat)
    requires Alike(p, q, k) && Layout(p) && Declared(p)
    ensures Layout(q) && Declared(q)
  {
    AlikeMarks(p, q, k);
    forall m: nat | p.minor >= 1 && Marked(q, m)
      ensures MarkerFits(q, m)
    {
      assert MarkerFits(p, m);
    }
  }

  lemma {:induction false} AlikeFits(fp: FloatModel, p: Program, q: Program, k: nat, pc: nat)
    requires Alike(p, q, k) && pc < |p.code| && pc != k && InstructionFits(fp, p, pc)
    ensures InstructionFits(fp, q, pc)
  {
    AlikeMarks(p, q, k);
    var ins := p.code[pc];
    if ins.op.Call? {
      var m: nat :| CallsMarked(fp, p, ins, m);
      assert Marked(p, m) && q.code[m] == p.code[m];
      forall i | 0 <= i < q.code[m].c && p.minor == 2
        ensures TagsAgree(q, ins.c, q.code[m].b, i)
      {
        assert TagsAgree(p, ins.c, p.code[m].b, i);
      }
      assert CallsMarked(fp, q, ins, m);
    } else if StraightLine(ins.op) {
      var s :| s in SignaturesOf(ins.op) && SignatureFits(fp, p, ins, s);
      assert SignatureFits(fp, q, ins, s);
    }
  }

  lemma {:induction false} AlikeCalls(p: Program, q: Program, k: nat)
    requires Alike(p, q, k) && !Recursive(p)
    ensures !Recursive(q)
  {
    AlikeMarks(p, q, k);
    if path :| Circle(q, path) {
      forall i, j | 0 <= i < j < |path| && j == i + 1
        ensures FunctionCalls(p, path[i], path[j])
      {
        assert FunctionCalls(q, path[i], path[j]);
        var pc: nat :| CallsAt(q, path[i], path[j], pc);
        assert CallsAt(p, path[i], path[j], pc);
      }
      assert Circle(p, path);
    }
  }

  lemma {:induction false} AlikeTrail(p: Program, q: Program, k: nat, start: nat, trail: seq<nat>)
    requires Alike(p, q, k)
    ensures Trail(p, start, trail) <==> Trail(q, start, trail)
  {
    forall x: nat, y: nat | x < |p.code|
      ensures Goes(p, x, y) <==> Goes(q, x, y)
    {
      assert x != k ==> q.code[x] == p.code[x];
    }
  }

  lemma {:induction false} AlikeFlows(p: Program, q: Program, k: nat, start: nat)
    requires Alike(p, q, k) && Flows(p, start)
    ensures Flows(q, start)
  {
    AlikeMarks(p, q, k);
    forall trail
      ensures Trail(p, start, trail) <==> Trail(q, start, trail)
    {
      AlikeTrail(p, q, k, start, trail);
    }
    forall x: nat
      ensures Reaches(p, start, x) <==> Reaches(q, start, x)
    {
      SameEnds(p, q, start, x);
    }
    forall x: nat | Reaches(q, start, x) && x < |q.code|
      ensures !FallsOff(q, x)
    {
      assert !FallsOff(p, x);
      assert x != k ==> q.code[x] == p.code[x];
    }
    var x: nat :| Reaches(p, start, x) && x < |p.code| && p.code[x].op.Return?;
    assert Reaches(q, start, x);
  }

  lemma {:induction false} SameEnds(p: Program, q: Program, start: nat, x: nat)
    requires forall trail :: Trail(p, start, trail) <==> Trail(q, start, trail)
    ensures Reaches(p, start, x) <==> Reaches(q, start, x)
  {
    if trail :| Trail(p, start, trail) && trail[|trail| - 1] == x { assert Trail(q, start, trail); }
    if trail :| Trail(q, start, trail) && trail[|trail| - 1] == x { assert Trail(p, start, trail); }
  }

  /** An accepted program stays accepted when a straight-line instruction is replaced by any other that fits one of its
      signatures. */
  lemma {:induction false} ReplacementIsAccepted(fp: FloatModel, p: Program, k: nat, ins: Instruction)
    requires VerifyStatus(fp, p) == Ok && k < |p.code| && StraightLine(p.code[k].op) && StraightFits(fp, p, ins)
    ensures VerifyStatus(fp, Replaced(p, k, ins)) == Ok
  {
    var q := Replaced(p, k, ins);
    AcceptsIff(fp, p);
    assert StraightLine(ins.op);
    assert Alike(p, q, k);
    AlikeMarks(p, q, k);
    AlikeLayout(p, q, k);
    AlikeCalls(p, q, k);
    forall pc: nat | pc < |q.code|
      ensures InstructionFits(fp, q, pc)
    {
      if pc == k { ReplacedFits(fp, p, q, k, ins); } else { AlikeFits(fp, p, q, k, pc); }
    }
    forall start: nat | Begins(q, start)
      ensures Flows(q, start)
    {
      assert Begins(p, start);
      AlikeFlows(p, q, k, start);
    }
    AcceptsIff(fp, q);
  }

  lemma {:induction false} ReplacedFits(fp: FloatModel, p: Program, q: Program, k: nat, ins: Instruction)
    requires Alike(p, q, k) && q.code[k] == ins && StraightFits(fp, p, ins)
    ensures InstructionFits(fp, q, k)
  {
    var s :| s in SignaturesOf(ins.op) && SignatureFits(fp, p, ins, s);
    assert SignatureFits(fp, q, ins, s);
  }

  // ----- every opcode -----

  /** Two functions with two registers, a number and a boolean: constants, a branch backwards and one forwards, and a
      call of the second function. */
  function Sample(fp: FloatModel): Program {
    Program(2, 2,
      [Instruction(FunctionMark, 0, 0, 0, ZERO),
       Instruction(ConstF64, 0, 0, 0, ONE),
       Instruction(ConstBool, 1, 0, 0, ZERO),
       Instruction(JumpIfFalse, 1, 1, 0, ZERO),
       Instruction(Jump, 5, 0, 0, ZERO),
       Instruction(Call, 0, 1, 0, fp.ofWhole(0)),
       Instruction(Return, 0, 0, 0, ZERO),
       Instruction(FunctionMark, 1, 0, 0, ZERO),
       Instruction(ConstF64, 0, 0, 0, ONE),
       Instruction(Return, 0, 0, 0, ZERO)],
      [1, 2], [1, 1])
  }

  lemma {:induction false} NoMarksBetween(code: seq<Instruction>, i: nat, j: nat)
    requires i <= j <= |code| && forall k | i <= k < j :: !code[k].op.FunctionMark?
    ensures MarksBefore(code, j) == MarksBefore(code, i)
    decreases j
  {
    if i < j { NoMarksBetween(code, i, j - 1); }
  }

  lemma {:induction false} SampleMarks(fp: FloatModel)
    ensures var p := Sample(fp);
            && |p.code| == 10 && (forall k: nat :: Marked(p, k) <==> k == 0 || k == 7)
            && MarksBefore(p.code, 0) == 0 && MarksBefore(p.code, 7) == 1 && MarksBefore(p.code, 10) == 2
  {
    var code := Sample(fp).code;
    NoMarksBetween(code, 1, 7);
    NoMarksBetween(code, 8, 10);
  }

  lemma {:induction false} WithinMarked(p: Program, m: nat, x: nat)
    requires Marked(p, m) && Body(p, m + 1, x)
    ensures InFunction(p, p.code[m].a, x)
  {
  }

  lemma {:induction false} SampleFits(fp: FloatModel, pc: nat)
    requires fp.WellBehaved() && pc < 10
    ensures pc < |Sample(fp).code| && InstructionFits(fp, Sample(fp), pc)
  {
    var p := Sample(fp);
    SampleMarks(fp);
    assert fp.whole(fp.ofWhole(0)) == Some(0);
    if pc == 1 || pc == 8 {
      assert SignatureFits(fp, p, p.code[pc], Signature(NUM, Unused, Unused, FiniteNumber));
    } else if pc == 2 {
      assert SignatureFits(fp, p, p.code[pc], Signature(FLAG, Unused, Unused, ZeroOrOne));
    } else if pc == 5 {
      assert CallsMarked(fp, p, p.code[5], 7);
    } else if pc == 6 {
      WithinMarked(p, 0, 6);
    } else if pc == 9 {
      WithinMarked(p, 7, 9);
    }
  }

  lemma {:induction false} SampleCalls(fp: FloatModel)
    ensures !Recursive(Sample(fp))
  {
    var p := Sample(fp);
    SampleMarks(fp);
    forall f: nat, g: nat | FunctionCalls(p, f, g)
      ensures f == 0 && g == 1
    {
      var pc: nat :| CallsAt(p, f, g, pc);
      assert pc == 5;
      var m: nat :| Marked(p, m) && p.code[m].a == f && Body(p, m + 1, pc);
    }
    if path :| Circle(p, path) {
      assert FunctionCalls(p, path[0], path[1]);
      assert |path| > 2 ==> FunctionCalls(p, path[1], path[2]);
    }
  }

  lemma {:induction false} SampleFlows(fp: FloatModel, start: nat)
    requires start == 1 || start == 8
    ensures Flows(Sample(fp), start)
  {
    var p := Sample(fp);
    SampleMarks(fp);
    forall x: nat | x < |p.code|
      ensures !FallsOff(p, x)
    {
    }
    if start == 1 {
      var trail := [1, 2, 3, 4, 5, 6];
      assert Trail(p, start, trail) && trail[|trail| - 1] == 6;
      assert Reaches(p, start, 6);
    } else {
      var trail := [8, 9];
      assert Trail(p, start, trail) && trail[|trail| - 1] == 9;
      assert Reaches(p, start, 9);
    }
  }

  lemma {:induction false} SampleIsAccepted(fp: FloatModel)
    requires fp.WellBehaved()
    ensures VerifyStatus(fp, Sample(fp)) == Ok
  {
    var p := Sample(fp);
    SampleMarks(fp);
    SampleCalls(fp);
    forall pc: nat | pc < |p.code|
      ensures InstructionFits(fp, p, pc)
    {
      SampleFits(fp, pc);
    }
    forall start: nat | Begins(p, start)
      ensures Flows(p, start)
    {
      SampleFlows(fp, start);
    }
    AcceptsIff(fp, p);
  }

  /** An instruction with this opcode that fits the sample. */
  function Instance(fp: FloatModel, op: Opcode): Instruction {
    match op
    case ConstF64 => Instruction(op, 0, 0, 0, ONE)
    case ConstBool => Instruction(op, 1, 0, 0, ONE)
    case Test(_) => Instruction(op, 1, 0, 0, ZERO)
    case _ => Instruction(op, 0, 0, 0, ZERO)
  }

  lemma {:induction false} InstanceFits(fp: FloatModel, op: Opcode)
    requires fp.WellBehaved() && StraightLine(op)
    ensures StraightFits(fp, Sample(fp), Instance(fp, op))
  {
    var p, ins := Sample(fp), Instance(fp, op);
    var s := if op.ConstF64? then Signature(NUM, Unused, Unused, FiniteNumber)
             else if op.ConstBool? then Signature(FLAG, Unused, Unused, ZeroOrOne)
             else if op.Test? then Signature(FLAG, NUM, NUM, NoLiteral)
             else if op.Calc? then Signature(NUM, NUM, NUM, NoLiteral)
             else Signature(NUM, NUM, Unused, NoLiteral);
    assert s in SignaturesOf(op) && SignatureFits(fp, p, ins, s);
  }

  ghost predicate Occurs(p: Program, op: Opcode) { exists k :: 0 <= k < |p.code| && p.code[k].op == op }

  /** Every opcode occurs in some accepted program of version 1.2. */
  lemma {:induction false} EveryOpcodeIsAccepted(fp: FloatModel, op: Opcode) returns (p: Program)
    requires fp.WellBehaved() && !op.Unknown?
    ensures VerifyStatus(fp, p) == Ok && p.minor == 2 && Occurs(p, op)
  {
    p := Sample(fp);
    SampleIsAccepted(fp);
    if StraightLine(op) {
      InstanceFits(fp, op);
      ReplacementIsAccepted(fp, p, 2, Instance(fp, op));
      p := Replaced(p, 2, Instance(fp, op));
      assert p.code[2].op == op;
    } else {
      assert p.code[0].op == FunctionMark && p.code[3].op == JumpIfFalse && p.code[4].op == Jump;
      assert p.code[5].op == Bytecode.Call && p.code[6].op == Bytecode.Return;
    }
  }
}
