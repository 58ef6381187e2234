/** The wire form of scalar modules: the encoder, the decoder with its checks, and the proof that accepted modules
    and accepted programs correspond one to one. */
module Wire {
  import opened Words
  import opened Floats
  import opened Bytecode
  import opened CallGraph
  import opened Verifier
  import opened Verification
  import Signatures

  const MAGIC: seq<Byte> := [0x4D, 0x4C, 0x42, 0x43]
  const HEADER_BYTES: nat := 16
  const RECORD_BYTES: nat := 24
  const MAX_BYTES: nat := 16 + 65536 * 24 + 256 + 64

  // ----- words of eight bytes -----

  function U64(n: Word64): seq<Byte> { LittleEndian(8, n) }

  lemma {:induction false} EightBytes()
    ensures Power256(8) == TWO_TO_64
  {
    Powers();
    assert Power256(5) == 256 * Power256(4);
    assert Power256(6) == 256 * Power256(5);
    assert Power256(7) == 256 * Power256(6);
  }

  function R64(b: seq<Byte>, o: nat): Word64
    requires o + 8 <= |b|
  {
    EightBytes();
    ReadBelow(b, o, 8);
    ReadAt(b, o, 8)
  }

  lemma {:induction false} Cut64(b: seq<Byte>, o: nat, n: Word64, rest: seq<Byte>)
    requires o <= |b|
    ensures b[o..] == U64(n) + rest <==> o + 8 <= |b| && R64(b, o) == n && b[o + 8..] == rest
  {
    Cut(b, o, U64(n), rest);
    if o + 8 <= |b| {
      EightBytes();
      ReadIs(b, o, 8, n);
    }
  }

  // ----- opcodes -----

  function OpByte(op: Opcode): nat {
    match op
    case ConstF64 => 1
    case Move => 2
    case Calc(Add) => 3
    case Calc(Subtract) => 4
    case Calc(Multiply) => 5
    case Calc(Divide) => 6
    case Neg => 7
    case Test(Equal) => 8
    case Test(NotEqual) => 9
    case Test(Less) => 10
    case Test(LessEqual) => 11
    case Test(Greater) => 12
    case Test(GreaterEqual) => 13
    case Jump => 14
    case JumpIfFalse => 15
    case Return => 16
    case FunctionMark => 17
    case Call => 18
    case ConstBool => 19
    case Unknown(byte) => byte
  }

  function OpOf(byte: Byte): Opcode {
    if byte == 1 then ConstF64 else if byte == 2 then Move
    else if byte == 3 then Calc(Add) else if byte == 4 then Calc(Subtract)
    else if byte == 5 then Calc(Multiply) else if byte == 6 then Calc(Divide)
    else if byte == 7 then Neg
    else if byte == 8 then Test(Equal) else if byte == 9 then Test(NotEqual)
    else if byte == 10 then Test(Less) else if byte == 11 then Test(LessEqual)
    else if byte == 12 then Test(Greater) else if byte == 13 then Test(GreaterEqual)
    else if byte == 14 then Jump else if byte == 15 then JumpIfFalse
    else if byte == 16 then Return else if byte == 17 then FunctionMark
    else if byte == 18 then Call else if byte == 19 then ConstBool
    else Unknown(byte)
  }

  predicate IsOpcode(op: Opcode) { OpByte(op) < 256 && OpOf(OpByte(op)) == op }

  lemma {:induction false} OpcodesAgree(byte: Byte, op: Opcode)
    ensures OpByte(OpOf(byte)) == byte && IsOpcode(OpOf(byte))
    ensures IsOpcode(op) ==> (OpByte(op) == byte <==> OpOf(byte) == op)
  {
  }

  // ----- what fits on the wire -----

  predicate IsWord(n: nat) { n < 0x1_0000_0000 }

  predicate InstructionFits(ins: Instruction) {
    IsOpcode(ins.op) && IsWord(ins.a) && IsWord(ins.b) && IsWord(ins.c)
  }

  predicate AllFit(code: seq<Instruction>) { forall i | 0 <= i < |code| :: InstructionFits(code[i]) }

  predicate AllBytes(tags: seq<nat>) { forall i | 0 <= i < |tags| :: tags[i] < 256 }

  /** Programs whose fields fit their places; only version 1.2 has type tables. */
  predicate Representable(p: Program) {
    && p.minor < 0x1_0000 && p.registerCount < 0x1_0000 && IsWord(|p.code|) && AllFit(p.code)
    && AllBytes(p.registerTypes) && AllBytes(p.returnTypes)
    && (if p.minor == TYPED_MINOR then |p.registerTypes| == p.registerCount
        else p.registerTypes == [] && p.returnTypes == [])
  }

  // ----- the wire form -----

  function Record(ins: Instruction, rest: seq<Byte>): seq<Byte>
    requires InstructionFits(ins)
  {
    [OpByte(ins.op), 0, 0, 0] + (U32(ins.a) + (U32(ins.b) + (U32(ins.c) + (U64(ins.imm.bits) + rest))))
  }

  function Records(code: seq<Instruction>, rest: seq<Byte>): seq<Byte>
    requires AllFit(code)
  {
    if code == [] then rest else Record(code[0], Records(code[1..], rest))
  }

  function Header(minor: Word16, registers: Word16, count: Word32, rest: seq<Byte>): seq<Byte> {
    MAGIC + (U16(1) + (U16(minor) + (U16(registers) + (U16(0) + (U32(count) + rest)))))
  }

  function Tables(p: Program): seq<Byte>
    requires AllBytes(p.registerTypes) && AllBytes(p.returnTypes)
  {
    p.registerTypes + p.returnTypes
  }

  function Encoded(p: Program): seq<Byte>
    requires Representable(p)
  {
    Header(p.minor, p.registerCount, |p.code|, Records(p.code, Tables(p)))
  }

  // ----- the same, field by field -----

  predicate RecordIs(b: seq<Byte>, o: nat, ins: Instruction) {
    && o + RECORD_BYTES <= |b| && b[o] == OpByte(ins.op) && b[o + 1..o + 4] == [0, 0, 0]
    && R32(b, o + 4) == ins.a && R32(b, o + 8) == ins.b && R32(b, o + 12) == ins.c && R64(b, o + 16) == ins.imm.bits
  }

  lemma {:induction false} RecordCut(b: seq<Byte>, o: nat, ins: Instruction, rest: seq<Byte>)
    requires o <= |b| && InstructionFits(ins)
    ensures b[o..] == Record(ins, rest) <==> RecordIs(b, o, ins) && b[o + RECORD_BYTES..] == rest
  {
    var r3 := U64(ins.imm.bits) + rest;
    var r2 := U32(ins.c) + r3;
    var r1 := U32(ins.b) + r2;
    var lead := [OpByte(ins.op), 0, 0, 0];
    Cut(b, o, lead, U32(ins.a) + r1);
    if o + 4 <= |b| {
      assert b[o..o + 4] == [b[o]] + b[o + 1..o + 4];
      assert lead == [OpByte(ins.op)] + [0, 0, 0];
      assert b[o..o + 4] == lead ==> b[o..o + 4][0] == lead[0] && b[o..o + 4][1..] == lead[1..];
      Cut32(b, o + 4, ins.a, r1);
    }
    if o + 8 <= |b| { Cut32(b, o + 8, ins.b, r2); }
    if o + 12 <= |b| { Cut32(b, o + 12, ins.c, r3); }
    if o + 16 <= |b| { Cut64(b, o + 16, ins.imm.bits, rest); }
  }

  predicate RecordsAre(b: seq<Byte>, o: nat, code: seq<Instruction>) {
    && o + RECORD_BYTES * |code| <= |b|
    && forall i | 0 <= i < |code| :: RecordIs(b, o + RECORD_BYTES * i, code[i])
  }

  lemma {:induction false} RecordsCut(b: seq<Byte>, o: nat, code: seq<Instruction>, rest: seq<Byte>)
    requires o <= |b| && AllFit(code)
    ensures b[o..] == Records(code, rest) <==> RecordsAre(b, o, code) && b[o + RECORD_BYTES * |code|..] == rest
    decreases |code|
  {
    if code != [] {
      RecordCut(b, o, code[0], Records(code[1..], rest));
      if o + RECORD_BYTES <= |b| {
        RecordsCut(b, o + RECORD_BYTES, code[1..], rest);
        FirstAndRest(b, o, code);
      }
    }
  }

  lemma {:induction false} FirstAndRest(b: seq<Byte>, o: nat, code: seq<Instruction>)
    requires code != []
    ensures RecordsAre(b, o, code) <==> RecordIs(b, o, code[0]) && RecordsAre(b, o + RECORD_BYTES, code[1..])
  {
    if RecordsAre(b, o, code) {
      assert RecordIs(b, o + RECORD_BYTES * 0, code[0]);
      forall i | 0 <= i < |code| - 1
        ensures RecordIs(b, o + RECORD_BYTES + RECORD_BYTES * i, code[1..][i])
      {
        var next := i + 1;
        assert RecordIs(b, o + RECORD_BYTES * next, code[next]);
      }
    }
    if RecordIs(b, o, code[0]) && RecordsAre(b, o + RECORD_BYTES, code[1..]) {
      forall i | 0 <= i < |code|
        ensures RecordIs(b, o + RECORD_BYTES * i, code[i])
      {
        if i > 0 {
          var before := i - 1;
          assert RecordIs(b, o + RECORD_BYTES + RECORD_BYTES * before, code[1..][before]);
        }
      }
    }
  }

  predicate HeaderIs(b: seq<Byte>, minor: nat, registers: nat, count: nat) {
    && HEADER_BYTES <= |b| && b[0..4] == MAGIC && R16(b, 4) == 1 && R16(b, 6) == minor && R16(b, 8) == registers
    && R16(b, 10) == 0 && R32(b, 12) == count
  }

  lemma {:induction false} HeaderCut(b: seq<Byte>, minor: Word16, registers: Word16, count: Word32, rest: seq<Byte>)
    ensures b == Header(minor, registers, count, rest)
       <==> HeaderIs(b, minor, registers, count) && b[HEADER_BYTES..] == rest
  {
    var r5 := U32(count) + rest;
    var r4 := U16(0) + r5;
    var r3 := U16(registers) + r4;
    var r2 := U16(minor) + r3;
    assert b[0..] == b;
    Cut(b, 0, MAGIC, U16(1) + r2);
    if 4 <= |b| { Cut16(b, 4, 1, r2); }
    if 6 <= |b| { Cut16(b, 6, minor, r3); }
    if 8 <= |b| { Cut16(b, 8, registers, r4); }
    if 10 <= |b| { Cut16(b, 10, 0, r5); }
    if 12 <= |b| { Cut32(b, 12, count, rest); }
  }

  predicate FieldsAre(b: seq<Byte>, p: Program) {
    && HeaderIs(b, p.minor, p.registerCount, |p.code|) && RecordsAre(b, HEADER_BYTES, p.code)
    && b[HEADER_BYTES + RECORD_BYTES * |p.code|..] == p.registerTypes + p.returnTypes
  }

  /** The encoding of a program is what has the right fields. */
  lemma {:induction false} FieldsIff(b: seq<Byte>, p: Program)
    requires Representable(p)
    ensures b == Encoded(p) <==> FieldsAre(b, p)
  {
    HeaderCut(b, p.minor, p.registerCount, |p.code|, Records(p.code, Tables(p)));
    if HEADER_BYTES <= |b| { RecordsCut(b, HEADER_BYTES, p.code, Tables(p)); }
  }

  // ----- decoding -----

  function InstructionAt(b: seq<Byte>, o: nat): (ins: Instruction)
    requires o + RECORD_BYTES <= |b|
    ensures InstructionFits(ins) && (RecordIs(b, o, ins) <==> b[o + 1..o + 4] == [0, 0, 0])
  {
    OpcodesAgree(b[o], OpOf(b[o]));
    Instruction(OpOf(b[o]), R32(b, o + 4), R32(b, o + 8), R32(b, o + 12), Double(R64(b, o + 16)))
  }

  lemma {:induction false} RecordUnique(b: seq<Byte>, o: nat, ins: Instruction)
    requires RecordIs(b, o, ins) && InstructionFits(ins)
    ensures ins == InstructionAt(b, o)
  {
    OpcodesAgree(b[o], ins.op);
  }

  /** The checks on header and length. */
  function HeaderStatus(b: seq<Byte>): Status {
    if |b| < HEADER_BYTES then BadFormat
    else if |b| > MAX_BYTES then LimitExceeded
    else if b[0..4] != MAGIC then BadMagic
    else if R16(b, 4) != 1 || R16(b, 6) > TYPED_MINOR then BadVersion
    else if R16(b, 10) != 0 then BadFormat
    else if !(1 <= R16(b, 8) <= MAX_REGISTERS && 1 <= R32(b, 12) <= MAX_INSTRUCTIONS) then LimitExceeded
    else
      var expected := HEADER_BYTES + R32(b, 12) * RECORD_BYTES;
      if (if R16(b, 6) < TYPED_MINOR then |b| == expected else |b| >= expected + R16(b, 8)) then Ok else BadFormat
  }

  function Decoded(b: seq<Byte>): Program
    requires HeaderStatus(b) == Ok
  {
    var minor, registers, count := R16(b, 6), R16(b, 8), R32(b, 12);
    var at := HEADER_BYTES + count * RECORD_BYTES;
    Program(minor, registers,
      seq(count, i requires 0 <= i < count => InstructionAt(b, HEADER_BYTES + RECORD_BYTES * i)),
      if minor == TYPED_MINOR then b[at..at + registers] else [],
      if minor == TYPED_MINOR then b[at + registers..] else [])
  }

  predicate ReservedZero(b: seq<Byte>, i: nat) {
    var o := HEADER_BYTES + RECORD_BYTES * i;
    o + RECORD_BYTES <= |b| && b[o + 1..o + 4] == [0, 0, 0]
  }

  predicate AllReservedZero(b: seq<Byte>)
    requires HeaderStatus(b) == Ok
  {
    forall i | 0 <= i < R32(b, 12) :: ReservedZero(b, i)
  }

  /** How many records there are, counted from `from`, before the first with a reserved byte set. */
  function CleanFrom(b: seq<Byte>, count: nat, from: nat): (clean: nat)
    requires from <= count
    ensures from <= clean <= count && forall i | from <= i < clean :: ReservedZero(b, i)
    ensures clean < count ==> !ReservedZero(b, clean)
    decreases count - from
  {
    if from < count && ReservedZero(b, from) then CleanFrom(b, count, from + 1) else from
  }

  /** What the verifier of modules answers: the first complaint of all, in the order of the source. */
  ghost function ModuleStatus(fp: FloatModel, b: seq<Byte>): Status {
    if HeaderStatus(b) != Ok then HeaderStatus(b) else RecordsStatus(fp, Decoded(b), CleanFrom(b, R32(b, 12), 0))
  }

  /** Accepted modules have no reserved bytes set; without them the answer is that about the program. */
  lemma {:induction false} ModuleStatusIs(fp: FloatModel, b: seq<Byte>)
    requires HeaderStatus(b) == Ok
    ensures AllReservedZero(b) ==> ModuleStatus(fp, b) == VerifyStatus(fp, Decoded(b))
    ensures !AllReservedZero(b) ==> ModuleStatus(fp, b) != Ok
  {
    CleanStatus(fp, Decoded(b), CleanFrom(b, R32(b, 12), 0));
  }

  lemma {:induction false} DecodedFits(b: seq<Byte>)
    requires HeaderStatus(b) == Ok
    ensures Representable(Decoded(b))
    ensures FieldsAre(b, Decoded(b)) <==> AllReservedZero(b)
  {
    var p := Decoded(b);
    var at := HEADER_BYTES + RECORD_BYTES * |p.code|;
    assert b[at..] == p.registerTypes + p.returnTypes;
    forall i | 0 <= i < |p.code|
      ensures RecordIs(b, HEADER_BYTES + RECORD_BYTES * i, p.code[i]) <==> ReservedZero(b, i)
    {
    }
  }

  lemma {:induction false} FieldsDecode(b: seq<Byte>, p: Program)
    requires Representable(p) && FieldsAre(b, p) && HeaderStatus(b) == Ok
    ensures Decoded(b) == p
  {
    CodeDecodes(b, p.code, Decoded(b).code);
    TablesDecode(b, p, Decoded(b));
  }

  lemma {:induction false} CodeDecodes(b: seq<Byte>, code: seq<Instruction>, decoded: seq<Instruction>)
    requires AllFit(code) && RecordsAre(b, HEADER_BYTES, code) && |decoded| == |code|
    requires forall i | 0 <= i < |code| :: decoded[i] == InstructionAt(b, HEADER_BYTES + RECORD_BYTES * i)
    ensures decoded == code
  {
    forall i | 0 <= i < |code|
      ensures decoded[i] == code[i]
    {
      RecordUnique(b, HEADER_BYTES + RECORD_BYTES * i, code[i]);
    }
  }

  lemma {:induction false} TablesDecode(b: seq<Byte>, p: Program, q: Program)
    requires HEADER_BYTES + RECORD_BYTES * |p.code| <= |b|
    requires |p.registerTypes| == if p.minor == TYPED_MINOR then p.registerCount else 0
    requires p.minor != TYPED_MINOR ==> p.returnTypes == []
    requires var at := HEADER_BYTES + RECORD_BYTES * |p.code|;
             && b[at..] == p.registerTypes + p.returnTypes
             && q.registerTypes == (if p.minor == TYPED_MINOR then b[at..at + p.registerCount] else [])
             && q.returnTypes == (if p.minor == TYPED_MINOR then b[at + p.registerCount..] else [])
    ensures q.registerTypes == p.registerTypes && q.returnTypes == p.returnTypes
  {
    var at := HEADER_BYTES + RECORD_BYTES * |p.code|;
    if p.minor == TYPED_MINOR {
      assert b[at..][..p.registerCount] == b[at..at + p.registerCount];
      assert b[at..][p.registerCount..] == b[at + p.registerCount..];
    }
  }

  predicate Sized(p: Program) {
    && p.minor <= TYPED_MINOR && 1 <= p.registerCount <= MAX_REGISTERS && 1 <= |p.code| <= MAX_INSTRUCTIONS
    && |p.registerTypes| <= MAX_REGISTERS && |p.returnTypes| <= MAX_FUNCTIONS
  }

  lemma {:induction false} AcceptedIsSized(fp: FloatModel, p: Program)
    requires Representable(p) && VerifyStatus(fp, p) == Ok
    ensures Sized(p)
  {
    TableFacts(p);
  }

  lemma {:induction false} SizedHeader(b: seq<Byte>, p: Program)
    requires Representable(p) && FieldsAre(b, p) && Sized(p)
    ensures HeaderStatus(b) == Ok
  {
    var at := HEADER_BYTES + RECORD_BYTES * |p.code|;
    assert |b[at..]| == |p.registerTypes| + |p.returnTypes|;
  }

  /** Decoding undoes encoding. */
  lemma {:induction false} EncodedDecodes(fp: FloatModel, p: Program)
    requires Representable(p) && VerifyStatus(fp, p) == Ok
    ensures HeaderStatus(Encoded(p)) == Ok && Decoded(Encoded(p)) == p && ModuleStatus(fp, Encoded(p)) == Ok
  {
    AcceptedIsSized(fp, p);
    EncodedStatus(fp, p);
    FieldsIff(Encoded(p), p);
    FieldsDecode(Encoded(p), p);
  }

  /** Encoding undoes decoding: an accepted module is the encoding of an accepted program. */
  lemma {:induction false} DecodedEncodes(fp: FloatModel, b: seq<Byte>)
    requires ModuleStatus(fp, b) == Ok
    ensures Representable(Decoded(b)) && VerifyStatus(fp, Decoded(b)) == Ok && Encoded(Decoded(b)) == b
  {
    ModuleStatusIs(fp, b);
    DecodedFits(b);
    FieldsIff(b, Decoded(b));
  }

  /** The modules that are accepted are exactly the encodings of the programs that are well made. */
  lemma {:induction false} AcceptedModules(fp: FloatModel, b: seq<Byte>)
    ensures ModuleStatus(fp, b) == Ok <==> exists p :: EncodesAccepted(fp, b, p)
  {
    if ModuleStatus(fp, b) == Ok {
      DecodedEncodes(fp, b);
      Signatures.AcceptsIff(fp, Decoded(b));
      assert EncodesAccepted(fp, b, Decoded(b));
    }
    if exists p :: EncodesAccepted(fp, b, p) {
      var p :| EncodesAccepted(fp, b, p);
      Signatures.AcceptsIff(fp, p);
      EncodedDecodes(fp, p);
    }
  }

  ghost predicate EncodesAccepted(fp: FloatModel, b: seq<Byte>, p: Program) {
    Representable(p) && Signatures.WellMade(fp, p) && b == Encoded(p)
  }

  // ----- decoding as the program does it -----

  method ReadRecords(b: seq<Byte>, count: nat) returns (code: seq<Instruction>)
    requires HEADER_BYTES + RECORD_BYTES * count <= |b|
    ensures |code| == count
    ensures forall i | 0 <= i < count :: code[i] == InstructionAt(b, HEADER_BYTES + RECORD_BYTES * i)
  {
    code := [];
    for pc := 0 to count
      invariant |code| == pc
      invariant forall i | 0 <= i < pc :: code[i] == InstructionAt(b, HEADER_BYTES + RECORD_BYTES * i)
    {
      code := code + [InstructionAt(b, HEADER_BYTES + RECORD_BYTES * pc)];
    }
  }

  lemma {:induction false} ReservedBytes(b: seq<Byte>, i: nat)
    requires HEADER_BYTES + RECORD_BYTES * i + RECORD_BYTES <= |b|
    ensures var o := HEADER_BYTES + RECORD_BYTES * i;
            ReservedZero(b, i) <==> b[o + 1] == 0 && b[o + 2] == 0 && b[o + 3] == 0
  {
    var o := HEADER_BYTES + RECORD_BYTES * i;
    var s := b[o + 1..o + 4];
    assert s[0] == b[o + 1] && s[1] == b[o + 2] && s[2] == b[o + 3];
    if b[o + 1] == 0 && b[o + 2] == 0 && b[o + 3] == 0 { assert s == [0, 0, 0]; }
  }

  /** How many records come before the first with a reserved byte set. */
  method CheckReserved(b: seq<Byte>, count: nat) returns (clean: nat)
    requires HEADER_BYTES + RECORD_BYTES * count <= |b|
    ensures clean == CleanFrom(b, count, 0)
  {
    for pc := 0 to count
      invariant CleanFrom(b, count, 0) == CleanFrom(b, count, pc)
    {
      var o := HEADER_BYTES + RECORD_BYTES * pc;
      ReservedBytes(b, pc);
      if b[o + 1] != 0 || b[o + 2] != 0 || b[o + 3] != 0 { return pc; }
    }
    clean := count;
  }

  /** The program in a module whose header is right. */
  method DecodeModule(b: seq<Byte>) returns (p: Program)
    requires HeaderStatus(b) == Ok
    ensures p == Decoded(b)
  {
    var minor, registers, count := R16(b, 6), R16(b, 8), R32(b, 12);
    var code := ReadRecords(b, count);
    var at := HEADER_BYTES + count * RECORD_BYTES;
    var registerTypes: seq<nat>, returnTypes: seq<nat> := [], [];
    if minor == TYPED_MINOR { registerTypes, returnTypes := b[at..at + registers], b[at + registers..]; }
    ghost var q := Decoded(b);
    assert code == q.code;
    assert registerTypes == q.registerTypes && returnTypes == q.returnTypes;
    p := Program(minor, registers, code, registerTypes, returnTypes);
  }

  /** Reads a module and verifies it. */
  method VerifyModule(fp: FloatModel, b: seq<Byte>) returns (status: Status)
    ensures status == ModuleStatus(fp, b)
  {
    status := HeaderStatus(b);
    if status != Ok { return; }
    var clean := CheckReserved(b, R32(b, 12));
    var p := DecodeModule(b);
    status := VerifyRecords(fp, p, clean);
  }

  // ----- the encoder -----

  /** Instructions whose immediate is written. */
  predicate Carries(op: Opcode) { op.ConstF64? || op.ConstBool? || op.Call? }

  predicate ImmediatesOk(fp: FloatModel, code: seq<Instruction>) {
    forall i | 0 <= i < |code| :: Carries(code[i].op) || fp.isZero(code[i].imm)
  }

  /** The encoder writes no other immediates: a negative zero becomes a positive one. */
  function Cleared(code: seq<Instruction>): (r: seq<Instruction>)
    ensures |r| == |code|
  {
    seq(|code|, i requires 0 <= i < |code| => Clear(code[i]))
  }

  function Clear(ins: Instruction): Instruction { if Carries(ins.op) then ins else ins.(imm := ZERO) }

  /** An accepted program is written as it is. */
  lemma {:induction false} AcceptedIsCleared(fp: FloatModel, p: Program)
    requires fp.WellBehaved() && VerifyStatus(fp, p) == Ok
    ensures Cleared(p.code) == p.code && ImmediatesOk(fp, p.code)
  {
    TableFacts(p);
    forall i | 0 <= i < |p.code|
      ensures Clear(p.code[i]) == p.code[i] && (Carries(p.code[i].op) || fp.isZero(p.code[i].imm))
    {
      assert InstructionStatus(fp, p, Table(p), i) == Ok;
    }
    assert Cleared(p.code) == p.code;
  }

  predicate TablesOk(p: Program) {
    if p.minor == TYPED_MINOR then
      && |p.registerTypes| == p.registerCount && |p.returnTypes| == |Markers(p.code, 0)|
      && 1 <= |p.returnTypes| <= MAX_FUNCTIONS
    else p.registerTypes == [] && p.returnTypes == []
  }

  /** Counts and tables, which the encoder checks before anything else. */
  function ShapeStatus(p: Program): Status {
    if p.minor > TYPED_MINOR then BadVersion
    else if !(1 <= p.registerCount <= MAX_REGISTERS && 1 <= |p.code| <= MAX_INSTRUCTIONS) then LimitExceeded
    else if !TablesOk(p) then BadFormat
    else Ok
  }

  /** The program as it is written. */
  function Written(p: Program): Program { p.(code := Cleared(p.code)) }

  /** What the encoder answers, space permitting. */
  ghost function EncodeStatus(fp: FloatModel, p: Program): Status {
    if ShapeStatus(p) != Ok then ShapeStatus(p)
    else if !ImmediatesOk(fp, p.code) then BadOperand
    else VerifyStatus(fp, Written(p))
  }

  /** The types of the fields of a program. */
  predicate FieldsTyped(p: Program) {
    && p.minor < 0x1_0000 && p.registerCount < 0x1_0000 && AllFit(p.code)
    && AllBytes(p.registerTypes) && AllBytes(p.returnTypes)
  }

  method CountMarkers(code: seq<Instruction>) returns (count: nat)
    ensures count == |Markers(code, 0)|
  {
    count := 0;
    for pc := 0 to |code|
      invariant count + |Markers(code, pc)| == |Markers(code, 0)|
    {
      if code[pc].op.FunctionMark? { count := count + 1; }
    }
  }

  method CheckImmediates(fp: FloatModel, code: seq<Instruction>) returns (ok: bool)
    ensures ok <==> ImmediatesOk(fp, code)
  {
    for pc := 0 to |code|
      invariant forall i | 0 <= i < pc :: Carries(code[i].op) || fp.isZero(code[i].imm)
    {
      if !Carries(code[pc].op) && !fp.isZero(code[pc].imm) { return false; }
    }
    ok := true;
  }

  method WriteHeader(out: array<Byte>, p: Program, ghost rest: seq<Byte>) returns (next: nat)
    requires HEADER_BYTES <= out.Length && p.minor < 0x1_0000 && p.registerCount < 0x1_0000 && IsWord(|p.code|)
    modifies out
    ensures next == HEADER_BYTES && out[..next] + rest == Header(p.minor, p.registerCount, |p.code|, rest)
    ensures forall i | next <= i < out.Length :: out[i] == old(out[i])
  {
    ghost var r5 := U32(|p.code|) + rest;
    ghost var r4 := U16(0) + r5;
    ghost var r3 := U16(p.registerCount) + r4;
    ghost var r2 := U16(p.minor) + r3;
    next := PutBytes(out, 0, MAGIC, U16(1) + r2);
    next := Put16(out, next, 1, r2);
    next := Put16(out, next, p.minor, r3);
    next := Put16(out, next, p.registerCount, r4);
    next := Put16(out, next, 0, r5);
    next := Put32(out, next, |p.code|, rest);
  }

  method WriteRecord(out: array<Byte>, cursor: nat, ins: Instruction, ghost rest: seq<Byte>) returns (next: nat)
    requires cursor + RECORD_BYTES <= out.Length && InstructionFits(ins)
    modifies out
    ensures next == cursor + RECORD_BYTES && out[..next] + rest == old(out[..cursor]) + Record(Clear(ins), rest)
    ensures forall i | next <= i < out.Length :: out[i] == old(out[i])
  {
    var bits: Word64 := if Carries(ins.op) then ins.imm.bits else 0;
    ghost var r3 := U64(bits) + rest;
    ghost var r2 := U32(ins.c) + r3;
    ghost var r1 := U32(ins.b) + r2;
    next := PutBytes(out, cursor, [OpByte(ins.op), 0, 0, 0], U32(ins.a) + r1);
    next := Put32(out, next, ins.a, r1);
    next := Put32(out, next, ins.b, r2);
    next := Put32(out, next, ins.c, r3);
    next := PutWord(out, next, 8, bits, rest);
  }

  lemma {:induction false} ClearFits(code: seq<Instruction>)
    requires AllFit(code)
    ensures AllFit(Cleared(code))
  {
  }

  lemma {:induction false} NextRecord(code: seq<Instruction>, pc: nat, rest: seq<Byte>)
    requires AllFit(code) && pc < |code|
    ensures Records(code[pc..], rest) == Record(code[pc], Records(code[pc + 1..], rest))
  {
    assert code[pc..][1..] == code[pc + 1..];
  }

  method WriteRecords(out: array<Byte>, cursor: nat, code: seq<Instruction>, ghost rest: seq<Byte>) returns (next: nat)
    requires cursor + RECORD_BYTES * |code| <= out.Length && AllFit(code) && AllFit(Cleared(code))
    modifies out
    ensures next == cursor + RECORD_BYTES * |code|
    ensures out[..next] + rest == old(out[..cursor]) + Records(Cleared(code), rest)
    ensures forall i | next <= i < out.Length :: out[i] == old(out[i])
  {
    next := cursor;
    ghost var cleared := Cleared(code);
    assert cleared[0..] == cleared;
    for pc := 0 to |code|
      invariant next == cursor + RECORD_BYTES * pc
      invariant out[..next] + Records(cleared[pc..], rest) == old(out[..cursor]) + Records(cleared, rest)
      invariant forall i | next <= i < out.Length :: out[i] == old(out[i])
    {
      NextRecord(cleared, pc, rest);
      next := WriteRecord(out, next, code[pc], Records(cleared[pc + 1..], rest));
    }
    assert cleared[|code|..] == [];
  }

  function EncodedSize(p: Program): nat {
    HEADER_BYTES + RECORD_BYTES * |p.code| + |p.registerTypes| + |p.returnTypes|
  }

  /** All parts one after another. */
  method WriteModule(out: array<Byte>, p: Program)
    requires Representable(Written(p)) && AllFit(p.code) && out.Length == EncodedSize(p)
    modifies out
    ensures out[..] == Encoded(Written(p))
  {
    ghost var cleared := Cleared(p.code);
    ghost var tables := p.registerTypes + p.returnTypes;
    var next := WriteHeader(out, p, Records(cleared, tables));
    next := WriteRecords(out, next, p.code, tables);
    next := PutBytes(out, next, p.registerTypes, p.returnTypes);
    next := PutBytes(out, next, p.returnTypes, []);
    assert out[..] == out[..next] + [];
  }

  method CheckShape(p: Program) returns (status: Status)
    ensures status == ShapeStatus(p)
  {
    if p.minor > TYPED_MINOR { return BadVersion; }
    if p.registerCount == 0 || p.registerCount > MAX_REGISTERS || |p.code| == 0 || |p.code| > MAX_INSTRUCTIONS {
      return LimitExceeded;
    }
    if p.minor == TYPED_MINOR {
      var count := CountMarkers(p.code);
      if count > MAX_FUNCTIONS || |p.registerTypes| != p.registerCount || |p.returnTypes| != count || count == 0 {
        return BadFormat;
      }
    } else if p.registerTypes != [] || p.returnTypes != [] {
      return BadFormat;
    }
    status := Ok;
  }

  lemma {:induction false} ShapedIsRepresentable(p: Program)
    requires FieldsTyped(p) && ShapeStatus(p) == Ok
    ensures Representable(Written(p)) && Sized(Written(p))
  {
    ClearFits(p.code);
  }

  /** Writes the module into a workspace and verifies that. */
  method BuildModule(fp: FloatModel, p: Program) returns (status: Status, temporary: array<Byte>)
    requires FieldsTyped(p) && ShapeStatus(p) == Ok
    ensures status == EncodeStatus(fp, p) != BufferTooSmall && fresh(temporary) && temporary.Length == EncodedSize(p)
    ensures status == Ok ==> Representable(Written(p)) && temporary[..] == Encoded(Written(p))
  {
    temporary := new Byte[EncodedSize(p)](_ => 0);
    var good := CheckImmediates(fp, p.code);
    if !good { return BadOperand, temporary; }
    ShapedIsRepresentable(p);
    WriteModule(temporary, p);
    status := VerifyModule(fp, temporary[..]);
    EncodedStatus(fp, Written(p));
    VerdictIsNotSize(fp, Written(p));
  }

  /** Encodes a program that passes the verifier; the buffer is written only then. */
  method Encode(fp: FloatModel, p: Program, out: array<Byte>) returns (status: Status, written: nat)
    requires FieldsTyped(p)
    modifies out
    ensures status == if ShapeStatus(p) == Ok && out.Length < EncodedSize(p) then BufferTooSmall else EncodeStatus(fp, p)
    ensures written == if status == Ok || status == BufferTooSmall then EncodedSize(p) else 0
    ensures status == Ok ==>
              && Representable(Written(p)) && |Encoded(Written(p))| == written
              && out[..written] == Encoded(Written(p)) && out[written..] == old(out[written..])
    ensures status != Ok ==> out[..] == old(out[..])
  {
    status := CheckShape(p);
    if status != Ok { return status, 0; }
    written := EncodedSize(p);
    if out.Length < written { return BufferTooSmall, written; }
    var temporary;
    status, temporary := BuildModule(fp, p);
    if status != Ok { return status, 0; }
    Deliver(out, temporary);
  }

  method Deliver(out: array<Byte>, temporary: array<Byte>)
    requires temporary.Length <= out.Length && temporary != out
    modifies out
    ensures out[..temporary.Length] == temporary[..]
    ensures out[temporary.Length..] == old(out[temporary.Length..])
  {
    var end := PutBytes(out, 0, temporary[..], []);
    assert out[..end] == out[..end] + [];
    assert temporary[..] == old(out[..0]) + (temporary[..] + []);
  }

  lemma {:induction false} VerdictIsNotSize(fp: FloatModel, p: Program)
    ensures VerifyStatus(fp, p) != BufferTooSmall
  {
    if 1 <= |p.code| && TableStatus(p) == Ok && (p.minor == TYPED_MINOR ==> TagsOk(p)) {
      TableFacts(p);
      CodeVerdict(fp, p, 0);
    }
  }

  lemma {:induction false} CodeVerdict(fp: FloatModel, p: Program, from: nat)
    requires from <= |p.code| && BasesOk(p, Table(p))
    requires p.minor == TYPED_MINOR ==> |p.registerTypes| == p.registerCount
    ensures CodeStatus(fp, p, Table(p), from) != BufferTooSmall
    decreases |p.code| - from
  {
    if from < |p.code| { CodeVerdict(fp, p, from + 1); }
  }

  /** Verifying what was written is verifying the program. */
  lemma {:induction false} EncodedStatus(fp: FloatModel, p: Program)
    requires Representable(p) && Sized(p)
    ensures ModuleStatus(fp, Encoded(p)) == VerifyStatus(fp, p)
  {
    FieldsIff(Encoded(p), p);
    SizedHeader(Encoded(p), p);
    FieldsDecode(Encoded(p), p);
    DecodedFits(Encoded(p));
    ModuleStatusIs(fp, Encoded(p));
  }

  // ----- accepted programs fit the wire -----

  lemma {:induction false} AcceptedInstructionFits(fp: FloatModel, p: Program, pc: nat)
    requires VerifyStatus(fp, p) == Ok && pc < |p.code|
    ensures InstructionFits(p.code[pc])
  {
    TableFacts(p);
    assert InstructionStatus(fp, p, Table(p), pc) == Ok;
    assert OperandsOk(fp, p, Table(p), pc);
    match p.code[pc].op
    case Calc(op) => {}
    case Test(op) => {}
    case _ => {}
  }

  /** What the verifier accepts can be encoded, and is written as it is. */
  lemma {:induction false} AcceptedEncodes(fp: FloatModel, p: Program)
    requires fp.WellBehaved() && VerifyStatus(fp, p) == Ok
    requires p.minor < TYPED_MINOR ==> p.registerTypes == [] && p.returnTypes == []
    ensures FieldsTyped(p) && Representable(p) && Written(p) == p && EncodeStatus(fp, p) == Ok
  {
    TableFacts(p);
    AcceptedIsCleared(fp, p);
    forall pc | 0 <= pc < |p.code|
      ensures InstructionFits(p.code[pc])
    {
      AcceptedInstructionFits(fp, p, pc);
    }
    TagsAreBytes(p);
    assert Written(p) == p;
  }

  lemma {:induction false} TagsAreBytes(p: Program)
    requires p.minor == TYPED_MINOR ==> TagsOk(p)
    requires p.minor != TYPED_MINOR ==> p.registerTypes == [] && p.returnTypes == []
    ensures AllBytes(p.registerTypes) && AllBytes(p.returnTypes)
  {
  }
}
