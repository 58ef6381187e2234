/** The format of scalar modules byte by byte, and what a record does when the machine comes to it. */
module ModuleFormat {
  import opened Wrappers
  import opened Words
  import opened Floats
  import opened Bytecode
  import opened Verifier
  import opened Wire
  import Signatures

  /** Two, four and eight bytes as a number, lowest first. */
  function Half(b: seq<Byte>, o: nat): nat
    requires o + 2 <= |b|
  {
    (b[o] as int) + 256 * (b[o + 1] as int)
  }

  function Word(b: seq<Byte>, o: nat): nat
    requires o + 4 <= |b|
  {
    (b[o] as int) + 256 * (b[o + 1] as int) + 65536 * (b[o + 2] as int) + 16777216 * (b[o + 3] as int)
  }

  function Long(b: seq<Byte>, o: nat): (n: nat)
    requires o + 8 <= |b|
    ensures n < 0x1_0000_0000_0000_0000
  {
    Word(b, o) + 4294967296 * Word(b, o + 4)
  }

  lemma {:induction false} ReadTwo(b: seq<Byte>, o: nat, k: nat)
    requires o + k + 2 <= |b|
    ensures ReadAt(b, o, k + 2) == (b[o] as int) + 256 * (b[o + 1] as int) + 65536 * ReadAt(b, o + 2, k)
  {
    assert ReadAt(b, o + 1, k + 1) == (b[o + 1] as nat) + 256 * ReadAt(b, o + 2, k);
  }

  lemma {:induction false} HalfIs(b: seq<Byte>, o: nat)
    requires o + 2 <= |b|
    ensures R16(b, o) == Half(b, o)
  {
    ReadTwo(b, o, 0);
  }

  lemma {:induction false} WordIs(b: seq<Byte>, o: nat)
    requires o + 4 <= |b|
    ensures R32(b, o) == Word(b, o)
  {
    ReadTwo(b, o, 2);
    ReadTwo(b, o + 2, 0);
  }

  lemma {:induction false} LongIs(b: seq<Byte>, o: nat)
    requires o + 8 <= |b|
    ensures R64(b, o) == Long(b, o)
  {
    ReadTwo(b, o, 6);
    ReadTwo(b, o + 2, 4);
    ReadTwo(b, o + 4, 2);
    ReadTwo(b, o + 6, 0);
  }

  /** The sixteen bytes before the records, and how long the whole is. */
  lemma {:induction false} HeaderBytes(p: Program)
    requires Representable(p)
    ensures var b := Encoded(p);
            && |b| == 16 + 24 * |p.code| + |p.registerTypes| + |p.returnTypes|
            && b[0] == 0x4D && b[1] == 0x4C && b[2] == 0x42 && b[3] == 0x43
            && Half(b, 4) == 1 && Half(b, 6) == p.minor && Half(b, 8) == p.registerCount && Half(b, 10) == 0
            && Word(b, 12) == |p.code|
            && b[16 + 24 * |p.code|..] == p.registerTypes + p.returnTypes
  {
    var b := Encoded(p);
    FieldsIff(b, p);
    HalfIs(b, 4);
    HalfIs(b, 6);
    HalfIs(b, 8);
    HalfIs(b, 10);
    WordIs(b, 12);
    assert b[0..4][0] == 0x4D && b[0..4][1] == 0x4C && b[0..4][2] == 0x42 && b[0..4][3] == 0x43;
    assert |b[16 + 24 * |p.code|..]| == |p.registerTypes| + |p.returnTypes|;
  }

  /** The fields of a record. */
  predicate Holds(b: seq<Byte>, o: nat, ins: Instruction) {
    && o + 24 <= |b| && b[o] == OpByte(ins.op) && b[o + 1] == b[o + 2] == b[o + 3] == 0
    && Word(b, o + 4) == ins.a && Word(b, o + 8) == ins.b && Word(b, o + 12) == ins.c
    && Long(b, o + 16) == ins.imm.bits
  }

  lemma {:induction false} RecordHolds(b: seq<Byte>, o: nat, ins: Instruction)
    requires RecordIs(b, o, ins)
    ensures Holds(b, o, ins)
  {
    assert b[o + 1..o + 4][0] == 0 && b[o + 1..o + 4][1] == 0 && b[o + 1..o + 4][2] == 0;
    WordIs(b, o + 4);
    WordIs(b, o + 8);
    WordIs(b, o + 12);
    LongIs(b, o + 16);
  }

  lemma {:induction false} RecordBytes(p: Program, pc: nat, b: seq<Byte>, o: nat)
    requires Representable(p) && pc < |p.code| && b == Encoded(p) && o == 16 + 24 * pc
    ensures Holds(b, o, p.code[pc])
  {
    FieldsIff(b, p);
    OneHolds(b, p.code, pc, o);
  }

  lemma {:induction false} OneHolds(b: seq<Byte>, code: seq<Instruction>, pc: nat, o: nat)
    requires RecordsAre(b, HEADER_BYTES, code) && pc < |code| && o == 16 + 24 * pc
    ensures Holds(b, o, code[pc])
  {
    assert RecordIs(b, HEADER_BYTES + RECORD_BYTES * pc, code[pc]);
    RecordHolds(b, o, code[pc]);
  }

  // ----- what records do -----

  /** The machine writes a value to register r and goes on to the next record. */
  predicate Writes(st: State, out: Outcome, r: nat, value: Double) {
    r < |st.regs| && out == Running(State(st.pc + 1, st.regs[r := value], st.frames))
  }

  /** The same with the result of an operation, unless that is not finite. */
  predicate WritesFinite(fp: FloatModel, st: State, out: Outcome, r: nat, value: Double) {
    if fp.finite(value) then Writes(st, out, r, value) else out == Halted(NonFinite)
  }

  predicate WritesTruth(st: State, out: Outcome, r: nat, truth: bool) {
    Writes(st, out, r, Double(if truth then 0x3FF0_0000_0000_0000 else 0))
  }

  /** The newest frame goes, and the register it names gets the value. */
  predicate ReturnsInto(st: State, out: Outcome, frame: Frame, value: Double)
    requires st.frames != []
  {
    frame.destination < |st.regs| ==>
      out == Running(State(frame.returnPc, st.regs[frame.destination := value], st.frames[..|st.frames| - 1]))
  }

  /** What the record with this byte does to the registers; `imm` is the number in its last eight bytes. */
  predicate Acts(fp: FloatModel, byte: Byte, a: nat, b: nat, c: nat, imm: Double, st: State, out: Outcome)
    requires a < |st.regs| && b < |st.regs| && c < |st.regs|
  {
    var x, y := st.regs[b], st.regs[c];
    && (byte == 1 || byte == 19 ==> Writes(st, out, a, imm))
    && (byte == 2 ==> Writes(st, out, a, x))
    && (byte == 3 ==> WritesFinite(fp, st, out, a, fp.arith(Add, x, y)))
    && (byte == 4 ==> WritesFinite(fp, st, out, a, fp.arith(Subtract, x, y)))
    && (byte == 5 ==> WritesFinite(fp, st, out, a, fp.arith(Multiply, x, y)))
    && (byte == 6 && fp.isZero(y) ==> out == Halted(DivisionByZero))
    && (byte == 6 && !fp.isZero(y) ==> WritesFinite(fp, st, out, a, fp.arith(Divide, x, y)))
    && (byte == 7 ==> WritesFinite(fp, st, out, a, fp.neg(x)))
    && (byte == 8 ==> WritesTruth(st, out, a, fp.test(Equal, x, y)))
    && (byte == 9 ==> WritesTruth(st, out, a, fp.test(NotEqual, x, y)))
    && (byte == 10 ==> WritesTruth(st, out, a, fp.test(Less, x, y)))
    && (byte == 11 ==> WritesTruth(st, out, a, fp.test(LessEqual, x, y)))
    && (byte == 12 ==> WritesTruth(st, out, a, fp.test(Greater, x, y)))
    && (byte == 13 ==> WritesTruth(st, out, a, fp.test(GreaterEqual, x, y)))
    && (byte == 16 && st.frames == [] ==> out == Halted(Finished(st.regs[a])))
    && (byte == 16 && st.frames != [] ==> ReturnsInto(st, out, st.frames[|st.frames| - 1], st.regs[a]))
    && (byte == 0 || byte > 19 ==> out == Halted(NotExecutable))
  }

  /** Where the record with this byte goes. */
  predicate Branches(fp: FloatModel, byte: Byte, a: nat, b: nat, st: State, out: Outcome) {
    && (byte == 14 ==> out == Running(State(a, st.regs, st.frames)))
    && (byte == 15 && a < |st.regs| ==> out == Running(State(if fp.isZero(st.regs[a]) then b else st.pc + 1, st.regs, st.frames)))
    && (byte == 17 ==> out == Running(State(st.pc + 1, st.regs, st.frames)))
  }

  /** A record of an encoded program does what its first byte says. */
  lemma {:induction false} RecordMeans(fp: FloatModel, p: Program, maxDepth: nat, st: State, b: seq<Byte>, o: nat)
    requires Representable(p) && st.pc < |p.code| && b == Encoded(p) && o == 16 + 24 * st.pc
    ensures o + 24 <= |b|
    ensures Word(b, o + 4) < |st.regs| && Word(b, o + 8) < |st.regs| && Word(b, o + 12) < |st.regs| ==>
              Acts(fp, b[o], Word(b, o + 4), Word(b, o + 8), Word(b, o + 12), Double(Long(b, o + 16)), st, Step(fp, p, maxDepth, st))
    ensures Branches(fp, b[o], Word(b, o + 4), Word(b, o + 8), st, Step(fp, p, maxDepth, st))
    ensures b[o] == 18 && |st.frames| >= maxDepth ==> Step(fp, p, maxDepth, st) == Halted(DepthExhausted)
  {
    RecordBytes(p, st.pc, b, o);
    InstructionMeans(fp, p, maxDepth, st, b[o]);
  }

  lemma {:induction false} InstructionMeans(fp: FloatModel, p: Program, maxDepth: nat, st: State, byte: Byte)
    requires st.pc < |p.code| && IsOpcode(p.code[st.pc].op) && byte == OpByte(p.code[st.pc].op)
    ensures var ins := p.code[st.pc];
            && (ins.a < |st.regs| && ins.b < |st.regs| && ins.c < |st.regs| ==>
                  Acts(fp, byte, ins.a, ins.b, ins.c, ins.imm, st, Step(fp, p, maxDepth, st)))
            && Branches(fp, byte, ins.a, ins.b, st, Step(fp, p, maxDepth, st))
            && (byte == 18 && |st.frames| >= maxDepth ==> Step(fp, p, maxDepth, st) == Halted(DepthExhausted))
  {
    OpcodesAgree(byte, p.code[st.pc].op);
    match p.code[st.pc].op
    case Calc(op) => {}
    case Test(op) => {}
    case _ =>
  }

  /** The registers with `arity` of them, from `source` on, copied over those from `base` on. */
  predicate Copied(before: seq<Double>, after: seq<Double>, source: nat, base: nat, arity: nat) {
    && |after| == |before| && source + arity <= |before|
    && forall r | 0 <= r < |before| :: after[r] == if base <= r < base + arity then before[source + (r - base)] else before[r]
  }

  /** The function behind position m is entered, with the arguments in its parameter registers. */
  predicate Enters(st: State, out: Outcome, m: nat, destination: nat, source: nat, base: nat, arity: nat) {
    && out.Running? && out.state.pc == m + 1
    && out.state.frames == st.frames + [Frame(st.pc + 1, destination)]
    && Copied(st.regs, out.state.regs, source, base, arity)
  }

  /** A record 18 of an accepted program enters the function with the number in its second field: behind the record 17
      that carries that number, with the arguments in the parameter registers given there. */
  lemma {:induction false} CallRecordMeans(
      fp: FloatModel, p: Program, maxDepth: nat, st: State, b: seq<Byte>, o: nat, m: nat, om: nat)
    requires Representable(p) && VerifyStatus(fp, p) == Ok && b == Encoded(p)
    requires st.pc < |p.code| && o == 16 + 24 * st.pc && m < |p.code| && om == 16 + 24 * m
    requires |st.regs| == p.registerCount && |st.frames| < maxDepth
    ensures o + 24 <= |b| && om + 24 <= |b|
    ensures b[o] == 18 && b[om] == 17 && Word(b, om + 4) == Word(b, o + 8) ==>
              Enters(st, Step(fp, p, maxDepth, st), m, Word(b, o + 4), Word(b, o + 12), Word(b, om + 8), Word(b, om + 12))
  {
    RecordBytes(p, st.pc, b, o);
    RecordBytes(p, m, b, om);
    CallHolds(fp, p, maxDepth, st, b, o, m, om);
  }

  lemma {:induction false} CallHolds(
      fp: FloatModel, p: Program, maxDepth: nat, st: State, b: seq<Byte>, o: nat, m: nat, om: nat)
    requires VerifyStatus(fp, p) == Ok && st.pc < |p.code| && m < |p.code|
    requires |st.regs| == p.registerCount && |st.frames| < maxDepth
    requires Holds(b, o, p.code[st.pc]) && Holds(b, om, p.code[m])
    requires IsOpcode(p.code[st.pc].op) && IsOpcode(p.code[m].op)
    ensures b[o] == 18 && b[om] == 17 && Word(b, om + 4) == Word(b, o + 8) ==>
              Enters(st, Step(fp, p, maxDepth, st), m, Word(b, o + 4), Word(b, o + 12), Word(b, om + 8), Word(b, om + 12))
  {
    OpcodesAgree(b[o], p.code[st.pc].op);
    OpcodesAgree(b[om], p.code[m].op);
    if b[o] == 18 && b[om] == 17 && p.code[m].a == p.code[st.pc].b { CallMeans(fp, p, maxDepth, st, m); }
  }

  lemma {:induction false} CallMeans(fp: FloatModel, p: Program, maxDepth: nat, st: State, m: nat)
    requires VerifyStatus(fp, p) == Ok && st.pc < |p.code| && m < |p.code|
    requires |st.regs| == p.registerCount && |st.frames| < maxDepth
    requires p.code[st.pc].op.Call? && p.code[m].op.FunctionMark? && p.code[m].a == p.code[st.pc].b
    ensures Enters(st, Step(fp, p, maxDepth, st), m, p.code[st.pc].a, p.code[st.pc].c, p.code[m].b, p.code[m].c)
  {
    AcceptedIff(fp, p);
    CallIsFit(fp, p, st.pc, m);
    CallSteps(fp, p, maxDepth, st, p.code[st.pc], p.code[m], m);
  }

  lemma {:induction false} CallSteps(
      fp: FloatModel, p: Program, maxDepth: nat, st: State, ins: Instruction, mark: Instruction, m: nat)
    requires st.pc < |p.code| && p.code[st.pc] == ins && ins.op.Call? && |st.frames| < maxDepth
    requires ins.b < |Table(p)| && Table(p)[ins.b].start == m + 1
    requires Table(p)[ins.b].base == mark.b && Table(p)[ins.b].arity == mark.c && fp.whole(ins.imm) == Some(mark.c)
    requires ins.c + mark.c <= |st.regs| && mark.b + mark.c <= |st.regs|
    ensures Enters(st, Step(fp, p, maxDepth, st), m, ins.a, ins.c, mark.b, mark.c)
  {
    CopiesArguments(st.regs, ins.c, mark.b, mark.c);
  }

  lemma {:induction false} CopiesArguments(regs: seq<Double>, source: nat, base: nat, arity: nat)
    requires source + arity <= |regs| && base + arity <= |regs|
    ensures Copied(regs, WriteArgs(regs, base, regs[source..source + arity]), source, base, arity)
  {
  }

  lemma {:induction false} CallIsFit(fp: FloatModel, p: Program, pc: nat, m: nat)
    requires Accepted(fp, p) && pc < |p.code| && m < |p.code|
    requires p.code[pc].op.Call? && p.code[m].op.FunctionMark? && p.code[m].a == p.code[pc].b
    ensures var ins, mark, fns := p.code[pc], p.code[m], Table(p);
            && ins.b < |fns| && fns[ins.b].start == m + 1 && fns[ins.b].base == mark.b && fns[ins.b].arity == mark.c
            && fp.whole(ins.imm) == Some(mark.c)
            && ins.c + mark.c <= p.registerCount && mark.b + mark.c <= p.registerCount
  {
    assert InstructionOk(fp, p, pc) && InstructionOk(fp, p, m);
    Signatures.LayoutIff(p);
    Signatures.MarkedAt(p, m);
    Signatures.TableAt(p, p.code[m].a);
  }

  // ----- what can be encoded -----

  /** Only constants and calls have a number in their last field; elsewhere a zero of either sign becomes zero. */
  predicate Cleans(fp: FloatModel, ins: Instruction, clean: Instruction) {
    if OpByte(ins.op) in {1, 18, 19} then clean == ins
    else fp.isZero(ins.imm) && clean.imm.bits == 0 && clean == ins.(imm := clean.imm)
  }

  /** The program that is written: the same but for such fields. */
  ghost predicate CleansAll(fp: FloatModel, p: Program, q: Program) {
    && q == p.(code := q.code) && |q.code| == |p.code|
    && forall i | 0 <= i < |p.code| :: Cleans(fp, p.code[i], q.code[i])
  }

  ghost predicate EncodesAs(fp: FloatModel, p: Program, q: Program) {
    && CleansAll(fp, p, q) && Signatures.WellMade(fp, q)
    && (p.minor < 2 ==> p.registerTypes == [] && p.returnTypes == [])
  }

  /** The encoder accepts a program exactly if, so cleaned, it is well made, and it has no type tables before version
      1.2. */
  lemma {:induction false} EncodableIff(fp: FloatModel, p: Program)
    requires FieldsTyped(p)
    ensures EncodeStatus(fp, p) == Ok <==> exists q :: EncodesAs(fp, p, q)
  {
    if EncodeStatus(fp, p) == Ok {
      Signatures.AcceptsIff(fp, Written(p));
      CleanedIs(fp, p, Written(p));
      assert EncodesAs(fp, p, Written(p));
    }
    if q :| EncodesAs(fp, p, q) {
      CleanedIs(fp, p, q);
      Signatures.AcceptsIff(fp, q);
      SameMarkers(p, q);
      MadeIsShaped(fp, p, q);
    }
  }

  lemma {:induction false} CleanedIs(fp: FloatModel, p: Program, q: Program)
    requires AllFit(p.code)
    ensures CleansAll(fp, p, q) <==> q == Written(p) && ImmediatesOk(fp, p.code)
  {
    forall i | 0 <= i < |p.code|
      ensures OpByte(p.code[i].op) in {1, 18, 19} <==> Carries(p.code[i].op)
    {
      OpcodesAgree(OpByte(p.code[i].op), p.code[i].op);
    }
    if CleansAll(fp, p, q) {
      forall i | 0 <= i < |p.code|
        ensures q.code[i] == Cleared(p.code)[i]
      {
        assert Cleans(fp, p.code[i], q.code[i]);
      }
      assert q.code == Cleared(p.code);
    }
  }

  lemma {:induction false} SameMarkers(p: Program, q: Program)
    requires q == Written(p)
    ensures Markers(q.code, 0) == Markers(p.code, 0)
  {
    MarkersCorrect(p.code, 0);
    MarkersCorrect(q.code, 0);
    AscendingUnique(Markers(p.code, 0), Markers(q.code, 0));
  }

  lemma {:induction false} MadeIsShaped(fp: FloatModel, p: Program, q: Program)
    requires EncodesAs(fp, p, q) && q == Written(p) && Markers(q.code, 0) == Markers(p.code, 0)
    ensures ShapeStatus(p) == Ok
  {
    Signatures.MarkerIndex(q, Markers(q.code, 0));
  }

  // ----- headers that are refused -----

  predicate Magic(b: seq<Byte>)
    requires |b| >= 16
  {
    b[0] == 0x4D && b[1] == 0x4C && b[2] == 0x42 && b[3] == 0x43
  }

  predicate CountsHold(b: seq<Byte>)
    requires |b| >= 16
  {
    1 <= Half(b, 8) <= 256 && 1 <= Word(b, 12) <= 65536
  }

  /** Up to version 1.1 the records end the module; in version 1.2 there are at least the tags of the registers too. */
  predicate LengthHolds(b: seq<Byte>)
    requires |b| >= 16
  {
    if Half(b, 6) < 2 then |b| == 16 + 24 * Word(b, 12) else |b| >= 16 + 24 * Word(b, 12) + Half(b, 8)
  }

  /** Which headers are refused, and how: the checks in their order. */
  lemma {:induction false} HeaderRefusals(fp: FloatModel, b: seq<Byte>)
    ensures |b| < 16 ==> ModuleStatus(fp, b) == BadFormat
    ensures |b| > 1573200 ==> ModuleStatus(fp, b) == LimitExceeded
    ensures 16 <= |b| <= 1573200 && !Magic(b) ==> ModuleStatus(fp, b) == BadMagic
    ensures 16 <= |b| <= 1573200 && Magic(b) && (Half(b, 4) != 1 || Half(b, 6) > 2) ==> ModuleStatus(fp, b) == BadVersion
    ensures 16 <= |b| <= 1573200 && Magic(b) && Half(b, 4) == 1 && Half(b, 6) <= 2 ==>
              && (Half(b, 10) != 0 ==> ModuleStatus(fp, b) == BadFormat)
              && (Half(b, 10) == 0 && !CountsHold(b) ==> ModuleStatus(fp, b) == LimitExceeded)
              && (Half(b, 10) == 0 && CountsHold(b) && !LengthHolds(b) ==> ModuleStatus(fp, b) == BadFormat)
              && (Half(b, 10) == 0 && CountsHold(b) && LengthHolds(b) ==> HeaderStatus(b) == Ok)
  {
    if |b| >= 16 {
      HalfIs(b, 4);
      HalfIs(b, 6);
      HalfIs(b, 8);
      HalfIs(b, 10);
      WordIs(b, 12);
      assert b[0..4] == [b[0], b[1], b[2], b[3]];
    }
  }
}
