/** The canonical wire form of data plans: encoder, verifier, and the proof that they are inverse. */
module DataPlan {
  import opened Utf8
  import opened Words

  const MAX_MODULE_BYTES: nat := 65536
  const MAX_TOTAL_STRING_BYTES: nat := 16384
  const HEADER_SIZE: nat := 16
  const FIXED_SIZE: nat := 88
  const SECTION_SIZE: nat := 56
  const STRINGS_AT: nat := 104

  const MODULE_MAGIC: seq<Byte> := [0x4D, 0x4C, 0x42, 0x43]
  const SECTION_MAGIC: seq<Byte> := [0x44, 0x50, 0x4C, 0x4E]

  const SUM: Byte := 1
  const COUNT: Byte := 2
  const NUMBER: Byte := 1

  datatype Limits = Limits(fileBytes: Word32, rows: Word32, columns: Word32, fieldBytes: Word32)

  datatype Plan = Plan(
    source: seq<Byte>, exportPath: seq<Byte>, input: seq<Byte>, operation: Byte,
    spanPresent: bool, line: Word32, column: Word32, limits: Limits)

  /** What the verifier hands out: the plan and the derived name of the result. */
  datatype View = View(plan: Plan, result: seq<Byte>)

  // ----- which plans there are -----

  /** "_suma" and "_conteo". */
  function Suffix(operation: Byte): seq<Byte> {
    if operation == SUM then [0x5F, 0x73, 0x75, 0x6D, 0x61]
    else if operation == COUNT then [0x5F, 0x63, 0x6F, 0x6E, 0x74, 0x65, 0x6F]
    else []
  }

  predicate LimitsOk(l: Limits) {
    && 0 < l.fileBytes <= 67108864 && 0 < l.rows <= 5000
    && 0 < l.columns <= 70 && 0 < l.fieldBytes <= 1048576
  }

  predicate SpanOk(plan: Plan) {
    if plan.spanPresent then plan.line != 0 && plan.column != 0 else plan.line == 0 && plan.column == 0
  }

  function ResultName(plan: Plan): seq<Byte> { plan.input + Suffix(plan.operation) }

  function StringBytes(plan: Plan): nat {
    |plan.source| + |plan.exportPath| + |plan.input| + |ResultName(plan)|
  }

  predicate ValidPlan(plan: Plan) {
    && (plan.operation == SUM || plan.operation == COUNT)
    && IsString(plan.source) && IsString(plan.exportPath) && IsIdentifier(plan.input)
    && LimitsOk(plan.limits) && SpanOk(plan)
    && |ResultName(plan)| <= MAX_NAME_BYTES
  }

  /** An identifier stays one when its suffix is added. */
  lemma {:induction false} SuffixKeepsIdentifier(s: seq<Byte>, operation: Byte)
    requires IsIdentifier(s) && |s| + |Suffix(operation)| <= MAX_NAME_BYTES
    ensures IsIdentifier(s + Suffix(operation))
  {
    IdentifierIs(s);
    IdentifierIs(s + Suffix(operation));
    SuffixWellFormed(s, operation);
    SuffixBytes(s, operation);
  }

  lemma {:induction false} IdentifierIs(s: seq<Byte>)
    ensures IsIdentifier(s) <==>
              s != [] && |s| <= MAX_NAME_BYTES && WellFormed(s) && forall i | 0 <= i < |s| :: IdentifierByte(s, i)
  {
    if forall i | 0 <= i < |s| :: IdentifierByte(s, i) {
      forall i | 0 <= i < |s|
        ensures s[i] != 0 && (s[i] < 0x80 ==> if i == 0 then IdentifierStart(s[i]) else IdentifierContinue(s[i]))
      {
        assert IdentifierByte(s, i);
      }
    }
  }

  lemma {:induction false} SuffixWellFormed(s: seq<Byte>, operation: Byte)
    requires WellFormed(s)
    ensures WellFormed(s + Suffix(operation))
  {
    AsciiWellFormed(Suffix(operation));
    WellFormedAppend(s, Suffix(operation));
  }

  lemma {:induction false} SuffixBytes(s: seq<Byte>, operation: Byte)
    requires s != [] && forall i | 0 <= i < |s| :: IdentifierByte(s, i)
    ensures forall i | 0 <= i < |s + Suffix(operation)| :: IdentifierByte(s + Suffix(operation), i)
  {
    forall i | 0 <= i < |s + Suffix(operation)|
      ensures IdentifierByte(s + Suffix(operation), i)
    {
      if i < |s| { assert IdentifierByte(s, i); } else { SuffixByte(s, operation, i); }
    }
  }

  predicate IdentifierByte(s: seq<Byte>, i: nat)
    requires i < |s|
  {
    s[i] != 0 && (s[i] < 0x80 ==> if i == 0 then IdentifierStart(s[i]) else IdentifierContinue(s[i]))
  }

  lemma {:induction false} SuffixByte(s: seq<Byte>, operation: Byte, i: nat)
    requires s != [] && |s| <= i < |s + Suffix(operation)|
    ensures IdentifierByte(s + Suffix(operation), i)
  {
    assert (s + Suffix(operation))[i] == Suffix(operation)[i - |s|];
  }

  lemma {:induction false} AsciiWellFormed(s: seq<Byte>)
    requires forall i | 0 <= i < |s| :: s[i] < 0x80
    ensures WellFormed(s)
    decreases |s|
  {
    if s != [] {
      assert s[..1] == [s[0]];
      WidthIs(s, 1);
      AsciiWellFormed(s[1..]);
    }
  }

  // ----- the wire form, each part followed by the rest -----

  function ModuleHeader(rest: seq<Byte>): seq<Byte> {
    MODULE_MAGIC + (U16(1) + (U16(3) + (U16(0) + (U16(1) + (U32(0) + rest)))))
  }

  function SectionHeader(section: Word32, table: Word32, l: Limits, rest: seq<Byte>): seq<Byte> {
    SECTION_MAGIC + (U16(1) + (U16(0) + (U32(section) + (U32(1) + (U32(1) + (U32(1) + LimitFields(table, l, rest)))))))
  }

  function LimitFields(table: Word32, l: Limits, rest: seq<Byte>): seq<Byte> {
    U32(l.fileBytes) + (U32(l.rows) + (U32(l.columns) + (U32(l.fieldBytes) + (U32(1) + (U32(4) + (U32(table) + (U32(0) + rest)))))))
  }

  function ColumnRecord(rest: seq<Byte>): seq<Byte> { U32(2) + ([NUMBER, 0] + (U16(0) + rest)) }

  function OperationRecord(plan: Plan, rest: seq<Byte>): seq<Byte> {
    [plan.operation, NUMBER] + (U16(if plan.spanPresent then 1 else 0)
    + (U32(2) + (U32(3) + SpanFields(plan, rest))))
  }

  function SpanFields(plan: Plan, rest: seq<Byte>): seq<Byte> {
    U32(plan.line) + (U32(plan.column) + (U32(0) + rest))
  }

  function StringField(s: seq<Byte>, rest: seq<Byte>): seq<Byte>
    requires |s| <= MAX_STRING_BYTES
  {
    U32(|s|) + (s + rest)
  }

  predicate Short(plan: Plan) {
    && |plan.source| <= MAX_STRING_BYTES && |plan.exportPath| <= MAX_STRING_BYTES
    && |plan.input| <= MAX_NAME_BYTES && |ResultName(plan)| <= MAX_NAME_BYTES
  }

  function StringTable(s1: seq<Byte>, s2: seq<Byte>, s3: seq<Byte>, s4: seq<Byte>): seq<Byte>
    requires |s1| <= MAX_STRING_BYTES && |s2| <= MAX_STRING_BYTES && |s3| <= MAX_STRING_BYTES && |s4| <= MAX_STRING_BYTES
  {
    StringField(s1, StringField(s2, StringField(s3, StringField(s4, []))))
  }

  function TableBytes(plan: Plan): nat { 16 + StringBytes(plan) }

  function EncodedPlan(plan: Plan): seq<Byte>
    requires Short(plan)
  {
    Assembled(FIXED_SIZE + TableBytes(plan), TableBytes(plan), plan, PlanTable(plan))
  }

  function PlanTable(plan: Plan): seq<Byte>
    requires Short(plan)
  {
    StringTable(plan.source, plan.exportPath, plan.input, ResultName(plan))
  }

  /** A module with these sizes, and with the string table behind the fixed part. */
  function Assembled(section: Word32, table: Word32, plan: Plan, rest: seq<Byte>): seq<Byte> {
    ModuleHeader(SectionHeader(section, table, plan.limits, ColumnRecord(OperationRecord(plan, rest))))
  }

  // ----- the same, field by field -----

  predicate HeaderFields(b: seq<Byte>) {
    && 16 <= |b| && b[0..4] == MODULE_MAGIC && R16(b, 4) == 1 && R16(b, 6) == 3
    && R16(b, 8) == 0 && R16(b, 10) == 1 && R32(b, 12) == 0
  }

  lemma {:induction false} HeaderCut(b: seq<Byte>, rest: seq<Byte>)
    ensures b == ModuleHeader(rest) <==> HeaderFields(b) && b[16..] == rest
  {
    var r5 := U32(0) + rest;
    var r4 := U16(1) + r5;
    var r3 := U16(0) + r4;
    var r2 := U16(3) + r3;
    var r1 := U16(1) + r2;
    assert b[0..] == b;
    Cut(b, 0, MODULE_MAGIC, r1);
    if 4 <= |b| { Cut16(b, 4, 1, r2); }
    if 6 <= |b| { Cut16(b, 6, 3, r3); }
    if 8 <= |b| { HeaderEnd(b, rest); }
  }

  lemma {:induction false} HeaderEnd(b: seq<Byte>, rest: seq<Byte>)
    requires 8 <= |b|
    ensures b[8..] == U16(0) + (U16(1) + (U32(0) + rest)) <==>
              16 <= |b| && R16(b, 8) == 0 && R16(b, 10) == 1 && R32(b, 12) == 0 && b[16..] == rest
  {
    var r5 := U32(0) + rest;
    Cut16(b, 8, 0, U16(1) + r5);
    if 10 <= |b| { Cut16(b, 10, 1, r5); }
    if 12 <= |b| { Cut32(b, 12, 0, rest); }
  }

  predicate SectionFields(b: seq<Byte>, section: nat) {
    && 40 <= |b| && b[16..20] == SECTION_MAGIC && R16(b, 20) == 1 && R16(b, 22) == 0
    && R32(b, 24) == section && R32(b, 28) == 1 && R32(b, 32) == 1 && R32(b, 36) == 1
  }

  lemma {:induction false} SectionCut(b: seq<Byte>, section: Word32, table: Word32, l: Limits, rest: seq<Byte>)
    requires 16 <= |b|
    ensures b[16..] == SectionHeader(section, table, l, rest)
       <==> SectionFields(b, section) && b[40..] == LimitFields(table, l, rest)
  {
    var r7 := LimitFields(table, l, rest);
    var r6 := U32(1) + r7;
    var r5 := U32(1) + r6;
    var r4 := U32(1) + r5;
    var r3 := U32(section) + r4;
    var r2 := U16(0) + r3;
    var r1 := U16(1) + r2;
    Cut(b, 16, SECTION_MAGIC, r1);
    if 20 <= |b| { Cut16(b, 20, 1, r2); }
    if 22 <= |b| { Cut16(b, 22, 0, r3); }
    if 24 <= |b| { FourCut(b, 24, section, 1, 1, 1, r7); }
  }

  predicate LimitFieldsAre(b: seq<Byte>, table: nat, l: Limits) {
    && 72 <= |b| && R32(b, 40) == l.fileBytes && R32(b, 44) == l.rows && R32(b, 48) == l.columns && R32(b, 52) == l.fieldBytes
    && R32(b, 56) == 1 && R32(b, 60) == 4 && R32(b, 64) == table && R32(b, 68) == 0
  }

  lemma {:induction false} LimitsCut(b: seq<Byte>, table: Word32, l: Limits, rest: seq<Byte>)
    requires 40 <= |b|
    ensures b[40..] == LimitFields(table, l, rest) <==> LimitFieldsAre(b, table, l) && b[72..] == rest
  {
    FourCut(b, 40, l.fileBytes, l.rows, l.columns, l.fieldBytes, U32(1) + (U32(4) + (U32(table) + (U32(0) + rest))));
    if 56 <= |b| { FourCut(b, 56, 1, 4, table, 0, rest); }
  }

  lemma {:induction false} FourCut(b: seq<Byte>, o: nat, n1: Word32, n2: Word32, n3: Word32, n4: Word32, rest: seq<Byte>)
    requires o <= |b|
    ensures b[o..] == U32(n1) + (U32(n2) + (U32(n3) + (U32(n4) + rest)))
       <==> && o + 16 <= |b| && R32(b, o) == n1 && R32(b, o + 4) == n2 && R32(b, o + 8) == n3 && R32(b, o + 12) == n4
            && b[o + 16..] == rest
  {
    var r3 := U32(n4) + rest;
    var r2 := U32(n3) + r3;
    var r1 := U32(n2) + r2;
    Cut32(b, o, n1, r1);
    if o + 4 <= |b| { Cut32(b, o + 4, n2, r2); }
    if o + 8 <= |b| { Cut32(b, o + 8, n3, r3); }
    if o + 12 <= |b| { Cut32(b, o + 12, n4, rest); }
  }

  predicate ColumnFields(b: seq<Byte>) {
    80 <= |b| && R32(b, 72) == 2 && b[76] == NUMBER && b[77] == 0 && R16(b, 78) == 0
  }

  lemma {:induction false} ColumnCut(b: seq<Byte>, rest: seq<Byte>)
    requires 72 <= |b|
    ensures b[72..] == ColumnRecord(rest) <==> ColumnFields(b) && b[80..] == rest
  {
    var r2 := U16(0) + rest;
    var r1 := [NUMBER, 0] + r2;
    Cut32(b, 72, 2, r1);
    if 76 <= |b| { Cut(b, 76, [NUMBER, 0], r2); }
    if 78 <= |b| {
      assert b[76..78] == [b[76], b[77]];
      Cut16(b, 78, 0, rest);
    }
  }

  predicate OperationFields(b: seq<Byte>, plan: Plan) {
    && 92 <= |b| && b[80] == plan.operation && b[81] == NUMBER
    && R16(b, 82) == (if plan.spanPresent then 1 else 0) && R32(b, 84) == 2 && R32(b, 88) == 3
  }

  lemma {:induction false} OperationCut(b: seq<Byte>, plan: Plan, rest: seq<Byte>)
    requires 80 <= |b|
    ensures b[80..] == OperationRecord(plan, rest) <==> OperationFields(b, plan) && b[92..] == SpanFields(plan, rest)
  {
    var flag: Word16 := if plan.spanPresent then 1 else 0;
    var r4 := SpanFields(plan, rest);
    var r3 := U32(3) + r4;
    var r2 := U32(2) + r3;
    var r1 := U16(flag) + r2;
    Cut(b, 80, [plan.operation, NUMBER], r1);
    if 82 <= |b| {
      assert b[80..82] == [b[80], b[81]];
      Cut16(b, 82, flag, r2);
    }
    if 84 <= |b| { Cut32(b, 84, 2, r3); }
    if 88 <= |b| { Cut32(b, 88, 3, r4); }
  }

  predicate SpanFieldsAre(b: seq<Byte>, plan: Plan) {
    STRINGS_AT <= |b| && R32(b, 92) == plan.line && R32(b, 96) == plan.column && R32(b, 100) == 0
  }

  lemma {:induction false} SpanCut(b: seq<Byte>, plan: Plan, rest: seq<Byte>)
    requires 92 <= |b|
    ensures b[92..] == SpanFields(plan, rest) <==> SpanFieldsAre(b, plan) && b[STRINGS_AT..] == rest
  {
    var r2 := U32(0) + rest;
    var r1 := U32(plan.column) + r2;
    Cut32(b, 92, plan.line, r1);
    if 96 <= |b| { Cut32(b, 96, plan.column, r2); }
    if 100 <= |b| { Cut32(b, 100, 0, rest); }
  }

  /** A string with its length, at position o. */
  predicate StringAt(b: seq<Byte>, o: nat, s: seq<Byte>) {
    o + 4 + |s| <= |b| && R32(b, o) == |s| && b[o + 4..o + 4 + |s|] == s
  }

  lemma {:induction false} StringCut(b: seq<Byte>, o: nat, s: seq<Byte>, rest: seq<Byte>)
    requires o <= |b| && |s| <= MAX_STRING_BYTES
    ensures b[o..] == StringField(s, rest) <==> StringAt(b, o, s) && b[o + 4 + |s|..] == rest
  {
    Cut32(b, o, |s|, s + rest);
    if o + 4 <= |b| { Cut(b, o + 4, s, rest); }
  }

  /** Four strings fill the module to its end. */
  predicate StringsAre(b: seq<Byte>, s1: seq<Byte>, s2: seq<Byte>, s3: seq<Byte>, s4: seq<Byte>) {
    var o1 := STRINGS_AT + 4 + |s1|;
    var o2 := o1 + 4 + |s2|;
    var o3 := o2 + 4 + |s3|;
    && StringAt(b, STRINGS_AT, s1) && StringAt(b, o1, s2) && StringAt(b, o2, s3) && StringAt(b, o3, s4)
    && |b| == o3 + 4 + |s4|
  }

  lemma {:induction false} TableCut(b: seq<Byte>, s1: seq<Byte>, s2: seq<Byte>, s3: seq<Byte>, s4: seq<Byte>)
    requires |s1| <= MAX_STRING_BYTES && |s2| <= MAX_STRING_BYTES && |s3| <= MAX_STRING_BYTES && |s4| <= MAX_STRING_BYTES
    requires STRINGS_AT <= |b|
    ensures b[STRINGS_AT..] == StringTable(s1, s2, s3, s4) <==> StringsAre(b, s1, s2, s3, s4)
  {
    TwoCut(b, STRINGS_AT, s1, s2, StringField(s3, StringField(s4, [])));
    var o2 := STRINGS_AT + 8 + |s1| + |s2|;
    if o2 <= |b| { TwoCut(b, o2, s3, s4, []); }
  }

  lemma {:induction false} TwoCut(b: seq<Byte>, o: nat, s1: seq<Byte>, s2: seq<Byte>, rest: seq<Byte>)
    requires o <= |b| && |s1| <= MAX_STRING_BYTES && |s2| <= MAX_STRING_BYTES
    ensures b[o..] == StringField(s1, StringField(s2, rest))
       <==> StringAt(b, o, s1) && StringAt(b, o + 4 + |s1|, s2) && b[o + 8 + |s1| + |s2|..] == rest
  {
    StringCut(b, o, s1, StringField(s2, rest));
    if o + 4 + |s1| <= |b| { StringCut(b, o + 4 + |s1|, s2, rest); }
  }

  /** Everything before the strings. */
  predicate FixedFields(b: seq<Byte>, section: nat, table: nat, plan: Plan) {
    && HeaderFields(b) && SectionFields(b, section) && LimitFieldsAre(b, table, plan.limits)
    && ColumnFields(b) && OperationFields(b, plan) && SpanFieldsAre(b, plan)
  }

  predicate Fields(b: seq<Byte>, plan: Plan) {
    && FixedFields(b, FIXED_SIZE + TableBytes(plan), TableBytes(plan), plan)
    && StringsAre(b, plan.source, plan.exportPath, plan.input, ResultName(plan))
  }

  /** The records from the column on. */
  lemma {:induction false} RecordsCut(b: seq<Byte>, plan: Plan, rest: seq<Byte>)
    requires 72 <= |b|
    ensures b[72..] == ColumnRecord(OperationRecord(plan, rest))
       <==> ColumnFields(b) && OperationFields(b, plan) && SpanFieldsAre(b, plan) && b[STRINGS_AT..] == rest
  {
    ColumnCut(b, OperationRecord(plan, rest));
    if 80 <= |b| { OperationCut(b, plan, rest); }
    if 92 <= |b| { SpanCut(b, plan, rest); }
  }

  lemma {:induction false} HeadersCut(b: seq<Byte>, section: Word32, table: Word32, l: Limits, rest: seq<Byte>)
    ensures b == ModuleHeader(SectionHeader(section, table, l, rest))
       <==> HeaderFields(b) && SectionFields(b, section) && LimitFieldsAre(b, table, l) && b[72..] == rest
  {
    HeaderCut(b, SectionHeader(section, table, l, rest));
    if 16 <= |b| { SectionCut(b, section, table, l, rest); }
    if 40 <= |b| { LimitsCut(b, table, l, rest); }
  }

  lemma {:induction false} ModuleCut(b: seq<Byte>, section: Word32, table: Word32, plan: Plan, rest: seq<Byte>)
    ensures b == Assembled(section, table, plan, rest)
       <==> FixedFields(b, section, table, plan) && b[STRINGS_AT..] == rest
  {
    HeadersCut(b, section, table, plan.limits, ColumnRecord(OperationRecord(plan, rest)));
    if 72 <= |b| { RecordsCut(b, plan, rest); }
  }

  /** The encoding of a plan is what has the right fields. */
  lemma {:induction false} FieldsIff(b: seq<Byte>, plan: Plan)
    requires Short(plan)
    ensures b == EncodedPlan(plan) <==> Fields(b, plan)
  {
    SectionFits(plan);
    var section: Word32, table: Word32 := FIXED_SIZE + TableBytes(plan), TableBytes(plan);
    EncodedIs(plan, section, table);
    AssembledIff(b, section, table, plan);
    FieldsAre(b, plan, section, table);
  }

  lemma {:induction false} EncodedIs(plan: Plan, section: Word32, table: Word32)
    requires Short(plan) && table == TableBytes(plan) && section == FIXED_SIZE + table
    ensures EncodedPlan(plan) == Assembled(section, table, plan, PlanTable(plan))
  {
  }

  lemma {:induction false} FieldsAre(b: seq<Byte>, plan: Plan, section: Word32, table: Word32)
    requires table == TableBytes(plan) && section == FIXED_SIZE + table
    ensures Fields(b, plan)
       <==> FixedFields(b, section, table, plan) && StringsAre(b, plan.source, plan.exportPath, plan.input, ResultName(plan))
  {
  }

  lemma {:induction false} SectionFits(plan: Plan)
    requires Short(plan)
    ensures FIXED_SIZE + TableBytes(plan) <= MAX_MODULE_BYTES
  {
  }

  lemma {:induction false} AssembledIff(b: seq<Byte>, section: Word32, table: Word32, plan: Plan)
    requires Short(plan)
    ensures b == Assembled(section, table, plan, PlanTable(plan))
       <==> FixedFields(b, section, table, plan) && StringsAre(b, plan.source, plan.exportPath, plan.input, ResultName(plan))
  {
    ModuleCut(b, section, table, plan, PlanTable(plan));
    if STRINGS_AT <= |b| { TableCut(b, plan.source, plan.exportPath, plan.input, ResultName(plan)); }
  }

  // ----- the encoder -----

  datatype Status =
    | Ok | BadFormat | BufferTooSmall | LimitExceeded | BadMagic | BadVersion | BadOpcode | BadType

  lemma {:induction false} ValidIsShort(plan: Plan)
    requires ValidPlan(plan)
    ensures Short(plan) && |EncodedPlan(plan)| == STRINGS_AT + TableBytes(plan) <= MAX_MODULE_BYTES
    ensures StringBytes(plan) <= MAX_TOTAL_STRING_BYTES
  {
  }

  /** What the encoder checks before it writes anything. */
  method CheckPlan(plan: Plan) returns (ok: bool)
    ensures ok <==> ValidPlan(plan)
  {
    if plan.operation != SUM && plan.operation != COUNT { return false; }
    ok := ValidString(plan.source);
    if !ok { return; }
    ok := ValidString(plan.exportPath);
    if !ok { return; }
    ok := ValidIdentifier(plan.input);
    if !ok { return; }
    ok := LimitsOk(plan.limits) && SpanOk(plan) && |plan.input| + |Suffix(plan.operation)| <= MAX_NAME_BYTES;
  }

  method WriteHeader(out: array<Byte>, ghost rest: seq<Byte>) returns (next: nat)
    requires HEADER_SIZE <= out.Length
    modifies out
    ensures next == HEADER_SIZE && out[..next] + rest == ModuleHeader(rest)
    ensures forall i | next <= i < out.Length :: out[i] == old(out[i])
  {
    ghost var r5 := U32(0) + rest;
    ghost var r4 := U16(1) + r5;
    ghost var r3 := U16(0) + r4;
    ghost var r2 := U16(3) + r3;
    next := PutBytes(out, 0, MODULE_MAGIC, U16(1) + r2);
    next := Put16(out, next, 1, r2);
    next := Put16(out, next, 3, r3);
    next := Put16(out, next, 0, r4);
    next := Put16(out, next, 1, r5);
    next := Put32(out, next, 0, rest);
  }

  method WriteSection(out: array<Byte>, cursor: nat, section: Word32, table: Word32, l: Limits, ghost rest: seq<Byte>)
      returns (next: nat)
    requires cursor + SECTION_SIZE <= out.Length
    modifies out
    ensures next == cursor + SECTION_SIZE
    ensures forall i | next <= i < out.Length :: out[i] == old(out[i])
    ensures out[..next] + rest == old(out[..cursor]) + SectionHeader(section, table, l, rest)
  {
    ghost var after := LimitFields(table, l, rest);
    ghost var r5 := U32(1) + after;
    ghost var r4 := U32(1) + r5;
    ghost var r3 := U32(1) + r4;
    ghost var r2 := U32(section) + r3;
    ghost var r1 := U16(0) + r2;
    next := PutBytes(out, cursor, SECTION_MAGIC, U16(1) + r1);
    next := Put16(out, next, 1, r1);
    next := Put16(out, next, 0, r2);
    next := Put32(out, next, section, r3);
    next := Put32(out, next, 1, r4);
    next := Put32(out, next, 1, r5);
    next := Put32(out, next, 1, after);
    next := WriteLimits(out, next, table, l, rest);
  }

  method WriteLimits(out: array<Byte>, cursor: nat, table: Word32, l: Limits, ghost rest: seq<Byte>) returns (next: nat)
    requires cursor + 32 <= out.Length
    modifies out
    ensures next == cursor + 32
    ensures forall i | next <= i < out.Length :: out[i] == old(out[i])
    ensures out[..next] + rest == old(out[..cursor]) + LimitFields(table, l, rest)
  {
    ghost var r7 := U32(0) + rest;
    ghost var r6 := U32(table) + r7;
    ghost var r5 := U32(4) + r6;
    ghost var r4 := U32(1) + r5;
    ghost var r3 := U32(l.fieldBytes) + r4;
    ghost var r2 := U32(l.columns) + r3;
    ghost var r1 := U32(l.rows) + r2;
    next := Put32(out, cursor, l.fileBytes, r1);
    next := Put32(out, next, l.rows, r2);
    next := Put32(out, next, l.columns, r3);
    next := Put32(out, next, l.fieldBytes, r4);
    next := Put32(out, next, 1, r5);
    next := Put32(out, next, 4, r6);
    next := Put32(out, next, table, r7);
    next := Put32(out, next, 0, rest);
  }

  method WriteRecords(out: array<Byte>, cursor: nat, plan: Plan, ghost rest: seq<Byte>) returns (next: nat)
    requires cursor + 32 <= out.Length
    modifies out
    ensures next == cursor + 32
    ensures forall i | next <= i < out.Length :: out[i] == old(out[i])
    ensures out[..next] + rest == old(out[..cursor]) + ColumnRecord(OperationRecord(plan, rest))
  {
    ghost var operation := OperationRecord(plan, rest);
    ghost var r1 := U16(0) + operation;
    next := Put32(out, cursor, 2, [NUMBER, 0] + r1);
    next := PutBytes(out, next, [NUMBER, 0], r1);
    next := Put16(out, next, 0, operation);
    next := WriteOperation(out, next, plan, rest);
  }

  method WriteOperation(out: array<Byte>, cursor: nat, plan: Plan, ghost rest: seq<Byte>) returns (next: nat)
    requires cursor + 24 <= out.Length
    modifies out
    ensures next == cursor + 24
    ensures forall i | next <= i < out.Length :: out[i] == old(out[i])
    ensures out[..next] + rest == old(out[..cursor]) + OperationRecord(plan, rest)
  {
    var flag: Word16 := if plan.spanPresent then 1 else 0;
    ghost var r6 := U32(0) + rest;
    ghost var r5 := U32(plan.column) + r6;
    ghost var r4 := U32(plan.line) + r5;
    ghost var r3 := U32(3) + r4;
    ghost var r2 := U32(2) + r3;
    next := PutBytes(out, cursor, [plan.operation, NUMBER], U16(flag) + r2);
    next := Put16(out, next, flag, r2);
    next := Put32(out, next, 2, r3);
    next := Put32(out, next, 3, r4);
    next := Put32(out, next, plan.line, r5);
    next := Put32(out, next, plan.column, r6);
    next := Put32(out, next, 0, rest);
  }

  method WriteString(out: array<Byte>, cursor: nat, s: seq<Byte>, ghost rest: seq<Byte>) returns (next: nat)
    requires |s| <= MAX_STRING_BYTES && cursor + 4 + |s| <= out.Length
    modifies out
    ensures next == cursor + 4 + |s|
    ensures forall i | next <= i < out.Length :: out[i] == old(out[i])
    ensures out[..next] + rest == old(out[..cursor]) + StringField(s, rest)
  {
    next := Put32(out, cursor, |s|, s + rest);
    next := PutBytes(out, next, s, rest);
  }

  method WriteStrings(out: array<Byte>, cursor: nat, plan: Plan) returns (next: nat)
    requires Short(plan) && cursor + TableBytes(plan) <= out.Length
    modifies out
    ensures next == cursor + TableBytes(plan)
    ensures forall i | next <= i < out.Length :: out[i] == old(out[i])
    ensures out[..next] == old(out[..cursor]) + PlanTable(plan)
  {
    var name := plan.input + Suffix(plan.operation);
    ghost var r3 := StringField(name, []);
    ghost var r2 := StringField(plan.input, r3);
    next := WriteString(out, cursor, plan.source, StringField(plan.exportPath, r2));
    next := WriteString(out, next, plan.exportPath, r2);
    next := WriteString(out, next, plan.input, r3);
    next := WriteString(out, next, name, []);
  }

  /** Writes the encoding of a valid plan to the front of a buffer that is large enough, and nothing else. */
  method DataEncode(plan: Plan, out: array<Byte>) returns (status: Status, written: nat)
    modifies out
    ensures status == if !ValidPlan(plan) then BadFormat else if |EncodedPlan(plan)| > out.Length then BufferTooSmall else Ok
    ensures written == if ValidPlan(plan) then |EncodedPlan(plan)| else 0
    ensures status == Ok ==> written == |EncodedPlan(plan)| && out[..] == EncodedPlan(plan) + old(out[..])[written..]
    ensures status != Ok ==> out[..] == old(out[..])
  {
    var valid := CheckPlan(plan);
    if !valid { return BadFormat, 0; }
    ValidIsShort(plan);
    SectionFits(plan);
    var table: Word32 := TableBytes(plan);
    var section: Word32 := FIXED_SIZE + table;
    if out.Length < HEADER_SIZE + section { return BufferTooSmall, HEADER_SIZE + section; }
    written := WritePlan(plan, out, section, table);
    assert out[..] == out[..written] + out[written..];
    status := Ok;
  }

  method WritePlan(plan: Plan, out: array<Byte>, section: Word32, table: Word32) returns (written: nat)
    requires Short(plan) && table == TableBytes(plan) && section == FIXED_SIZE + table
    requires HEADER_SIZE + section <= out.Length
    modifies out
    ensures written == HEADER_SIZE + section && out[..written] == EncodedPlan(plan)
    ensures forall i | written <= i < out.Length :: out[i] == old(out[i])
  {
    ghost var strings := PlanTable(plan);
    ghost var records := ColumnRecord(OperationRecord(plan, strings));
    written := WriteHeader(out, SectionHeader(section, table, plan.limits, records));
    written := WriteSection(out, written, section, table, plan.limits, records);
    written := WriteRecords(out, written, plan, strings);
    written := WriteStrings(out, written, plan);
    assert out[..written] == Assembled(section, table, plan, strings);
    EncodedIs(plan, section, table);
  }

  // ----- the verifier -----

  predicate Known(operation: Byte) { operation == SUM || operation == COUNT }

  /** Reads one string of the table.  If the table has a string `t` there, it is found. */
  method ReadString(b: seq<Byte>, cursor: nat, total: nat, ghost there: bool, ghost t: seq<Byte>)
      returns (ok: bool, text: seq<Byte>, cursor': nat, total': nat)
    requires total <= MAX_TOTAL_STRING_BYTES
    requires there ==> StringAt(b, cursor, t) && IsString(t) && total + |t| <= MAX_TOTAL_STRING_BYTES
    ensures total' <= MAX_TOTAL_STRING_BYTES
    ensures ok ==>
              && StringAt(b, cursor, text) && IsString(text)
              && cursor' == cursor + 4 + |text| && total' == total + |text|
    ensures there ==> ok && text == t
  {
    ok, text, cursor', total' := false, [], cursor, total;
    if cursor > |b| || |b| - cursor < 4 { return; }
    var length := R32(b, cursor);
    if length == 0 || length > MAX_STRING_BYTES || length > |b| - (cursor + 4) || length > MAX_TOTAL_STRING_BYTES - total { return; }
    var found := b[cursor + 4..cursor + 4 + length];
    ok := ValidString(found);
    if ok { text, cursor', total' := found, cursor + 4 + length, total + length; }
  }

  /** Everything in front of the column, but for the sizes of the limits. */
  predicate LayoutPasses(b: seq<Byte>) {
    && STRINGS_AT <= |b| <= MAX_MODULE_BYTES && HeaderFields(b) && SectionFields(b, |b| - 16)
    && LimitFieldsAre(b, |b| - STRINGS_AT, LimitsIn(b))
  }

  predicate HeadersPass(b: seq<Byte>) { LayoutPasses(b) && LimitsOk(LimitsIn(b)) }

  // ----- which refusal means what -----

  predicate WrongMagic(b: seq<Byte>) { HEADER_SIZE <= |b| <= MAX_MODULE_BYTES && b[0..4] != MODULE_MAGIC }

  /** The version of the module or, with everything in front of it right, that of the section. */
  predicate WrongVersion(b: seq<Byte>) {
    && HEADER_SIZE <= |b| <= MAX_MODULE_BYTES && b[0..4] == MODULE_MAGIC
    && (R16(b, 4) != 1 || R16(b, 6) != 3
        || (STRINGS_AT <= |b| && HeaderFields(b) && b[16..20] == SECTION_MAGIC && R16(b, 20) != 1))
  }

  predicate OverLimits(b: seq<Byte>) { |b| > MAX_MODULE_BYTES || (LayoutPasses(b) && !LimitsOk(LimitsIn(b))) }

  predicate WrongOpcode(b: seq<Byte>) { HeadersPass(b) && ColumnFields(b) && !Known(b[80]) }

  predicate WrongType(b: seq<Byte>) { HeadersPass(b) && ColumnFields(b) && Known(b[80]) && b[81] != NUMBER }

  predicate RecordsPass(b: seq<Byte>)
    requires STRINGS_AT <= |b|
  {
    ColumnFields(b) && OperationFields(b, SpanIn(b)) && SpanFieldsAre(b, SpanIn(b)) && Known(b[80]) && SpanOk(SpanIn(b))
  }

  /** The fixed part up to the resource limits. */
  method CheckHeaders(b: seq<Byte>) returns (status: Status)
    ensures status == Ok <==> HeadersPass(b)
    ensures status == BadMagic <==> WrongMagic(b)
    ensures status == BadVersion <==> WrongVersion(b)
    ensures status == LimitExceeded <==> OverLimits(b)
    ensures status in {Ok, BadMagic, BadVersion, LimitExceeded, BadFormat}
  {
    if |b| < HEADER_SIZE { return BadFormat; }
    if |b| > MAX_MODULE_BYTES { return LimitExceeded; }
    if b[0..4] != MODULE_MAGIC { return BadMagic; }
    if R16(b, 4) != 1 || R16(b, 6) != 3 { return BadVersion; }
    if R16(b, 8) != 0 || R16(b, 10) != 1 || R32(b, 12) != 0 { return BadFormat; }
    if |b| < HEADER_SIZE + FIXED_SIZE { return BadFormat; }
    if b[16..20] != SECTION_MAGIC { return BadFormat; }
    if R16(b, 20) != 1 { return BadVersion; }
    if R16(b, 22) != 0 { return BadFormat; }
    var section, table := R32(b, 24), R32(b, 64);
    if section != |b| - HEADER_SIZE || table != section - FIXED_SIZE { return BadFormat; }
    if R32(b, 28) != 1 || R32(b, 32) != 1 || R32(b, 36) != 1 || R32(b, 56) != 1 || R32(b, 60) != 4 { return BadFormat; }
    if R32(b, 68) != 0 { return BadFormat; }
    if !LimitsOk(LimitsIn(b)) { return LimitExceeded; }
    status := Ok;
  }

  function LimitsIn(b: seq<Byte>): Limits {
    if |b| >= 72 then Limits(R32(b, 40), R32(b, 44), R32(b, 48), R32(b, 52)) else Limits(0, 0, 0, 0)
  }

  /** The column and the operation; gives operation and span. */
  method CheckRecords(b: seq<Byte>) returns (status: Status)
    requires STRINGS_AT <= |b|
    ensures status == Ok <==> RecordsPass(b)
    ensures status == BadOpcode <==> ColumnFields(b) && !Known(b[80])
    ensures status == BadType <==> ColumnFields(b) && Known(b[80]) && b[81] != NUMBER
    ensures status in {Ok, BadOpcode, BadType, BadFormat}
  {
    if R32(b, 72) != 2 || b[76] != NUMBER || b[77] != 0 || R16(b, 78) != 0 { return BadFormat; }
    if !Known(b[80]) { return BadOpcode; }
    if b[81] != NUMBER { return BadType; }
    if R16(b, 82) > 1 { return BadFormat; }
    if R32(b, 84) != 2 || R32(b, 88) != 3 { return BadFormat; }
    if R32(b, 100) != 0 { return BadFormat; }
    if !SpanOk(SpanIn(b)) { return BadFormat; }
    status := Ok;
  }

  /** Operation and span as they are in the module; the strings are still missing. */
  function SpanIn(b: seq<Byte>): Plan
    requires STRINGS_AT <= |b|
  {
    Plan([], [], [], b[80], R16(b, 82) == 1, R32(b, 92), R32(b, 96), LimitsIn(b))
  }

  /** There is only one way to read the strings. */
  lemma {:induction false} StringsUnique(
      b: seq<Byte>, s1: seq<Byte>, s2: seq<Byte>, s3: seq<Byte>, s4: seq<Byte>,
      t1: seq<Byte>, t2: seq<Byte>, t3: seq<Byte>, t4: seq<Byte>)
    requires StringsAre(b, s1, s2, s3, s4) && StringsAre(b, t1, t2, t3, t4)
    ensures s1 == t1 && s2 == t2 && s3 == t3 && s4 == t4
  {
    StringUnique(b, STRINGS_AT, s1, t1);
    var o1 := STRINGS_AT + 4 + |s1|;
    StringUnique(b, o1, s2, t2);
    var o2 := o1 + 4 + |s2|;
    StringUnique(b, o2, s3, t3);
    StringUnique(b, o2 + 4 + |s3|, s4, t4);
  }

  lemma {:induction false} StringUnique(b: seq<Byte>, o: nat, s: seq<Byte>, t: seq<Byte>)
    requires StringAt(b, o, s) && StringAt(b, o, t)
    ensures s == t
  {
  }

  /** Four strings that the table may hold. */
  predicate FourStrings(b: seq<Byte>, s1: seq<Byte>, s2: seq<Byte>, s3: seq<Byte>, s4: seq<Byte>) {
    && StringsAre(b, s1, s2, s3, s4) && IsString(s1) && IsString(s2) && IsString(s3) && IsString(s4)
    && |s1| + |s2| + |s3| + |s4| <= MAX_TOTAL_STRING_BYTES
  }

  /** Two strings one after the other. */
  predicate TwoStrings(b: seq<Byte>, cursor: nat, s1: seq<Byte>, s2: seq<Byte>) {
    StringAt(b, cursor, s1) && IsString(s1) && StringAt(b, cursor + 4 + |s1|, s2) && IsString(s2)
  }

  lemma {:induction false} FourIsTwice(b: seq<Byte>, s1: seq<Byte>, s2: seq<Byte>, s3: seq<Byte>, s4: seq<Byte>)
    ensures FourStrings(b, s1, s2, s3, s4) <==>
              var c := STRINGS_AT + 8 + |s1| + |s2|;
              && TwoStrings(b, STRINGS_AT, s1, s2) && TwoStrings(b, c, s3, s4) && |b| == c + 8 + |s3| + |s4|
              && |s1| + |s2| + |s3| + |s4| <= MAX_TOTAL_STRING_BYTES
  {
  }

  method ReadTwo(b: seq<Byte>, cursor: nat, total: nat, ghost there: bool, ghost t1: seq<Byte>, ghost t2: seq<Byte>)
      returns (ok: bool, s1: seq<Byte>, s2: seq<Byte>, cursor': nat, total': nat)
    requires total <= MAX_TOTAL_STRING_BYTES
    requires there ==> TwoStrings(b, cursor, t1, t2) && total + |t1| + |t2| <= MAX_TOTAL_STRING_BYTES
    ensures total' <= MAX_TOTAL_STRING_BYTES
    ensures ok ==>
              && TwoStrings(b, cursor, s1, s2)
              && cursor' == cursor + 8 + |s1| + |s2| && total' == total + |s1| + |s2|
    ensures there ==> ok && s1 == t1 && s2 == t2
  {
    s1, s2 := [], [];
    ok, s1, cursor', total' := ReadString(b, cursor, total, there, t1);
    if !ok { return; }
    ok, s2, cursor', total' := ReadString(b, cursor', total', there, t2);
  }

  /** Reads four strings that fill the module to its end.  If the table is made of four, these are found. */
  method ReadFour(b: seq<Byte>, ghost there: bool, ghost t1: seq<Byte>, ghost t2: seq<Byte>, ghost t3: seq<Byte>,
                  ghost t4: seq<Byte>)
      returns (ok: bool, s1: seq<Byte>, s2: seq<Byte>, s3: seq<Byte>, s4: seq<Byte>)
    requires STRINGS_AT <= |b| && (there ==> FourStrings(b, t1, t2, t3, t4))
    ensures ok ==> FourStrings(b, s1, s2, s3, s4)
    ensures there ==> ok && s1 == t1 && s2 == t2 && s3 == t3 && s4 == t4
  {
    s3, s4 := [], [];
    FourIsTwice(b, t1, t2, t3, t4);
    var c, total;
    ok, s1, s2, c, total := ReadTwo(b, STRINGS_AT, 0, there, t1, t2);
    if !ok { return; }
    ok, s3, s4, c, total := ReadTwo(b, c, total, there, t3, t4);
    if !ok { return; }
    ok := c == |b|;
    FourIsTwice(b, s1, s2, s3, s4);
  }

  /** The strings of a plan with this operation. */
  predicate PlanStrings(b: seq<Byte>, operation: Byte, s1: seq<Byte>, s2: seq<Byte>, s3: seq<Byte>, s4: seq<Byte>) {
    && FourStrings(b, s1, s2, s3, s4) && IsIdentifier(s3) && IsIdentifier(s4)
    && s4 == s3 + Suffix(operation)
  }

  /** The strings of a valid plan, and nothing behind them. */
  method ReadStrings(b: seq<Byte>, operation: Byte, ghost there: bool, ghost plan: Plan)
      returns (status: Status, source: seq<Byte>, exportPath: seq<Byte>, input: seq<Byte>, result: seq<Byte>)
    requires STRINGS_AT <= |b| && Known(operation)
    requires there ==>
               PlanStrings(b, operation, plan.source, plan.exportPath, plan.input, ResultName(plan))
    ensures status == Ok ==> PlanStrings(b, operation, source, exportPath, input, result)
    ensures there ==> status == Ok
    ensures status in {Ok, BadFormat}
  {
    var ok;
    status := BadFormat;
    ok, source, exportPath, input, result :=
      ReadFour(b, there, plan.source, plan.exportPath, plan.input, ResultName(plan));
    if !ok { return; }
    ok := ValidIdentifier(input);
    if !ok { return; }
    ok := ValidIdentifier(result);
    if !ok { return; }
    if result != input + Suffix(operation) { return; }
    status := Ok;
  }

  ghost predicate IsEncoding(b: seq<Byte>) { exists plan: Plan :: Encodes(b, plan) }

  ghost predicate Encodes(b: seq<Byte>, plan: Plan) { ValidPlan(plan) && b == EncodedPlan(plan) }

  /** The plan that a module encodes, if it encodes one, and what the checks will find of it. */
  lemma {:induction false} WantedPlan(b: seq<Byte>) returns (there: bool, plan: Plan)
    ensures there == IsEncoding(b) && (there ==> EncodingHas(b, plan))
  {
    there := IsEncoding(b);
    if there {
      plan :| Encodes(b, plan);
      EncodingFields(b, plan);
    } else {
      plan := Plan([], [], [], 0, false, 0, 0, Limits(0, 0, 0, 0));
    }
  }

  /** Accepts exactly the encodings of valid plans, and gives the plan back with the derived name. */
  method VerifyData(b: seq<Byte>) returns (status: Status, view: View)
    ensures status == Ok <==> IsEncoding(b)
    ensures status == BadMagic <==> WrongMagic(b)
    ensures status == BadVersion <==> WrongVersion(b)
    ensures status == LimitExceeded <==> OverLimits(b)
    ensures status == BadOpcode <==> WrongOpcode(b)
    ensures status == BadType <==> WrongType(b)
    ensures status in {Ok, BadMagic, BadVersion, LimitExceeded, BadOpcode, BadType, BadFormat}
    ensures status == Ok ==> Encodes(b, view.plan) && view.result == ResultName(view.plan)
  {
    view := View(Plan([], [], [], 0, false, 0, 0, Limits(0, 0, 0, 0)), []);
    ghost var there, wanted := WantedPlan(b);
    status := CheckHeaders(b);
    if status != Ok { return; }
    status := CheckRecords(b);
    if status != Ok { return; }
    var source, exportPath, input, result;
    status, source, exportPath, input, result := ReadStrings(b, b[80], there, wanted);
    if status != Ok { return; }
    var plan := SpanIn(b).(source := source, exportPath := exportPath, input := input);
    ReadIsEncoding(b, plan, result);
    view := View(plan, result);
  }

  /** What has passed all checks is the encoding of what was read. */
  lemma {:induction false} ReadIsEncoding(b: seq<Byte>, plan: Plan, result: seq<Byte>)
    requires STRINGS_AT <= |b|
    requires plan == SpanIn(b).(source := plan.source, exportPath := plan.exportPath, input := plan.input)
    requires HeadersPass(b) && RecordsPass(b)
    requires PlanStrings(b, b[80], plan.source, plan.exportPath, plan.input, result)
    ensures Encodes(b, plan) && result == ResultName(plan)
  {
    assert ValidPlan(plan);
    ValidIsShort(plan);
    PlanRead(b, plan);
  }

  /** What the checks will find in the encoding of a plan. */
  predicate EncodingHas(b: seq<Byte>, plan: Plan) {
    && HeadersPass(b) && RecordsPass(b) && b[80] == plan.operation
    && PlanStrings(b, plan.operation, plan.source, plan.exportPath, plan.input, ResultName(plan))
  }

  lemma {:induction false} EncodingFields(b: seq<Byte>, plan: Plan)
    requires ValidPlan(plan) && b == EncodedPlan(plan)
    ensures EncodingHas(b, plan)
  {
    ValidIsShort(plan);
    FieldsIff(b, plan);
    FixedPart(b, plan);
    SuffixKeepsIdentifier(plan.input, plan.operation);
  }

  /** The fixed part of an encoding passes the checks. */
  lemma {:induction false} FixedPart(b: seq<Byte>, plan: Plan)
    requires Fields(b, plan) && |b| == STRINGS_AT + TableBytes(plan) <= MAX_MODULE_BYTES
    requires LimitsOk(plan.limits) && Known(plan.operation) && SpanOk(plan)
    ensures HeadersPass(b) && RecordsPass(b) && b[80] == plan.operation
  {
    assert LimitsIn(b) == plan.limits;
  }

  lemma {:induction false} PlanRead(b: seq<Byte>, plan: Plan)
    requires ValidPlan(plan) && Short(plan) && STRINGS_AT <= |b|
    requires plan == SpanIn(b).(source := plan.source, exportPath := plan.exportPath, input := plan.input)
    requires HeaderFields(b) && SectionFields(b, |b| - 16) && LimitFieldsAre(b, |b| - STRINGS_AT, LimitsIn(b))
    requires ColumnFields(b) && OperationFields(b, SpanIn(b)) && SpanFieldsAre(b, SpanIn(b))
    requires StringsAre(b, plan.source, plan.exportPath, plan.input, ResultName(plan))
    ensures b == EncodedPlan(plan)
  {
    FieldsIff(b, plan);
  }

  // ----- the codec is a bijection -----

  /** Different plans have different encodings. */
  lemma {:induction false} EncodeInjective(p: Plan, q: Plan)
    requires ValidPlan(p) && ValidPlan(q) && EncodedPlan(p) == EncodedPlan(q)
    ensures p == q
  {
    ValidIsShort(p);
    ValidIsShort(q);
    FieldsIff(EncodedPlan(p), p);
    FieldsIff(EncodedPlan(q), q);
    FieldsUnique(EncodedPlan(p), p, q);
  }

  lemma {:induction false} FieldsUnique(b: seq<Byte>, p: Plan, q: Plan)
    requires Fields(b, p) && Fields(b, q)
    ensures p == q
  {
    StringsUnique(b, p.source, p.exportPath, p.input, ResultName(p), q.source, q.exportPath, q.input, ResultName(q));
    SameFixed(b, p, q);
  }

  lemma {:induction false} SameFixed(b: seq<Byte>, p: Plan, q: Plan)
    requires OperationFields(b, p) && OperationFields(b, q) && SpanFieldsAre(b, p) && SpanFieldsAre(b, q)
    requires exists t :: LimitFieldsAre(b, t, p.limits)
    requires exists t :: LimitFieldsAre(b, t, q.limits)
    ensures p.operation == q.operation && p.spanPresent == q.spanPresent && p.line == q.line && p.column == q.column
    ensures p.limits == q.limits
  {
  }

  /** Encoding a plan and verifying the bytes gives the plan back. */
  method RoundTrip(plan: Plan) returns (view: View)
    requires ValidPlan(plan)
    ensures view == View(plan, ResultName(plan))
  {
    ValidIsShort(plan);
    var out := new Byte[|EncodedPlan(plan)|](_ => 0);
    var status, written := DataEncode(plan, out);
    assert out[..] == EncodedPlan(plan);
    assert Encodes(out[..], plan);
    status, view := VerifyData(out[..]);
    EncodeInjective(plan, view.plan);
  }
}
