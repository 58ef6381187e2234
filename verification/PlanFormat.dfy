/** The format of data-plan modules byte by byte, and which plans there are. */
module PlanFormat {
  import opened Words
  import opened Utf8
  import opened ModuleFormat
  import opened DataPlan

  // ----- strings and names -----

  ghost predicate Spells(cps: seq<nat>, s: seq<Byte>) {
    (forall i | 0 <= i < |cps| :: IsScalar(cps[i])) && EncodeAll(cps) == s
  }

  /** Between 1 and 4096 bytes that spell characters other than NUL. */
  ghost predicate Text(s: seq<Byte>) {
    1 <= |s| <= 4096 && exists cps :: Spells(cps, s) && forall i | 0 <= i < |cps| :: cps[i] != 0
  }

  predicate Letter(cp: nat) { 0x41 <= cp <= 0x5A || 0x61 <= cp <= 0x7A || cp == 0x5F }

  predicate Numeral(cp: nat) { 0x30 <= cp <= 0x39 }

  /** Between 1 and 255 bytes that spell letters, digits except at the beginning, underscores, and anything beyond ASCII. */
  ghost predicate Name(s: seq<Byte>) {
    1 <= |s| <= 255 && exists cps :: Spells(cps, s) && NameCharacters(cps)
  }

  predicate NameCharacters(cps: seq<nat>) {
    forall i | 0 <= i < |cps| :: cps[i] >= 0x80 || Letter(cps[i]) || (i > 0 && Numeral(cps[i]))
  }

  predicate NoZero(s: seq<Byte>) { forall i | 0 <= i < |s| :: s[i] != 0 }

  /** The bytes of a text are those of its first character and those of the rest. */
  lemma {:induction false} FirstCharacter(cps: seq<nat>, s: seq<Byte>)
    requires cps != [] && Spells(cps, s)
    ensures var c, rest := Encode(cps[0]), EncodeAll(cps[1..]);
            && s == c + rest && Spells(cps[1..], rest) && |c| > 0
            && (cps[0] == 0 ==> c == [0])
            && (cps[0] != 0 ==> (forall i | 0 <= i < |c| :: c[i] != 0 && (cps[0] >= 0x80 ==> c[i] >= 0x80)))
            && (cps[0] < 0x80 ==> c == [cps[0]])
  {
    EncodeDecodes(cps[0]);
    if cps[0] != 0 { EncodedBytes(cps[0]); }
  }

  lemma {:induction false} ZeroFree(cps: seq<nat>, s: seq<Byte>)
    requires Spells(cps, s)
    ensures NoZero(s) <==> forall i | 0 <= i < |cps| :: cps[i] != 0
    decreases cps
  {
    if cps != [] {
      FirstCharacter(cps, s);
      var c, rest := Encode(cps[0]), EncodeAll(cps[1..]);
      ZeroFree(cps[1..], rest);
      NoZeroAppend(c, rest);
      assert (forall i | 0 <= i < |cps| :: cps[i] != 0) <==> cps[0] != 0 && forall i | 0 <= i < |cps[1..]| :: cps[1..][i] != 0 by {
        HeadAndTail(cps);
      }
    }
  }

  lemma {:induction false} HeadAndTail(cps: seq<nat>)
    requires cps != []
    ensures (forall i | 0 <= i < |cps| :: cps[i] != 0) <==> cps[0] != 0 && forall i | 0 <= i < |cps[1..]| :: cps[1..][i] != 0
  {
    if cps[0] != 0 && forall i | 0 <= i < |cps[1..]| :: cps[1..][i] != 0 {
      forall i | 0 <= i < |cps|
        ensures cps[i] != 0
      {
        if i > 0 { assert cps[i] == cps[1..][i - 1]; }
      }
    }
  }

  lemma {:induction false} NoZeroAppend(s: seq<Byte>, t: seq<Byte>)
    ensures NoZero(s + t) <==> NoZero(s) && NoZero(t)
  {
    if NoZero(s + t) {
      forall i | 0 <= i < |s|
        ensures s[i] != 0
      {
        assert s[i] == (s + t)[i];
      }
      forall i | 0 <= i < |t|
        ensures t[i] != 0
      {
        assert t[i] == (s + t)[|s| + i];
      }
    }
  }

  /** The strings of the codec are texts. */
  lemma {:induction false} StringIff(s: seq<Byte>)
    ensures IsString(s) <==> Text(s)
  {
    if IsString(s) {
      var cps := WellFormedEncodes(s);
      ZeroFree(cps, s);
    }
    if Text(s) {
      var cps :| Spells(cps, s) && forall i | 0 <= i < |cps| :: cps[i] != 0;
      EncodingWellFormed(cps);
      ZeroFree(cps, s);
    }
  }

  /** ASCII bytes behind the beginning of a name. */
  predicate Continues(s: seq<Byte>) {
    forall i | 0 <= i < |s| && s[i] < 0x80 :: IdentifierContinue(s[i])
  }

  lemma {:induction false} ContinuesAppend(s: seq<Byte>, t: seq<Byte>)
    ensures Continues(s + t) <==> Continues(s) && Continues(t)
  {
    if Continues(s + t) {
      forall i | 0 <= i < |s| && s[i] < 0x80
        ensures IdentifierContinue(s[i])
      {
        assert s[i] == (s + t)[i];
      }
      forall i | 0 <= i < |t| && t[i] < 0x80
        ensures IdentifierContinue(t[i])
      {
        assert t[i] == (s + t)[|s| + i];
      }
    }
  }

  predicate Continuing(cps: seq<nat>) {
    forall i | 0 <= i < |cps| :: cps[i] >= 0x80 || Letter(cps[i]) || Numeral(cps[i])
  }

  lemma {:induction false} ContinuesIff(cps: seq<nat>, s: seq<Byte>)
    requires Spells(cps, s) && NoZero(s)
    ensures Continues(s) <==> Continuing(cps)
    decreases cps
  {
    if cps != [] {
      FirstCharacter(cps, s);
      ZeroFree(cps, s);
      var c, rest := Encode(cps[0]), EncodeAll(cps[1..]);
      NoZeroAppend(c, rest);
      ContinuesIff(cps[1..], rest);
      ContinuesAppend(c, rest);
      assert Continues(c) <==> cps[0] >= 0x80 || Letter(cps[0]) || Numeral(cps[0]) by {
        if cps[0] < 0x80 { assert c[0] == cps[0]; }
      }
      ContinuingCons(cps);
    }
  }

  lemma {:induction false} ContinuingCons(cps: seq<nat>)
    requires cps != []
    ensures Continuing(cps) <==> (cps[0] >= 0x80 || Letter(cps[0]) || Numeral(cps[0])) && Continuing(cps[1..])
    ensures NameCharacters(cps) <==> (cps[0] >= 0x80 || Letter(cps[0])) && Continuing(cps[1..])
  {
    assert cps == [cps[0]] + cps[1..];
    assert forall i | 0 < i < |cps| :: cps[i] == cps[1..][i - 1];
  }

  /** The identifiers of the codec are names. */
  lemma {:induction false} IdentifierIff(s: seq<Byte>)
    ensures IsIdentifier(s) <==> Name(s)
  {
    if IsIdentifier(s) { IdentifierIsName(s); }
    if Name(s) { NameIsIdentifier(s); }
  }

  lemma {:induction false} IdentifierIsName(s: seq<Byte>)
    requires IsIdentifier(s)
    ensures Name(s)
  {
    var cps := WellFormedEncodes(s);
    assert FollowsRules(s);
    NameIff(cps, s);
  }

  lemma {:induction false} NameIsIdentifier(s: seq<Byte>)
    requires Name(s)
    ensures IsIdentifier(s)
  {
    var cps :| Spells(cps, s) && NameCharacters(cps);
    assert forall i | 0 <= i < |cps| :: cps[i] != 0;
    ZeroFree(cps, s);
    EncodingWellFormed(cps);
    NameIff(cps, s);
    assert FollowsRules(s);
  }

  /** What identifiers ask of ASCII bytes. */
  predicate FollowsRules(s: seq<Byte>) {
    forall i | 0 <= i < |s| && s[i] < 0x80 :: if i == 0 then IdentifierStart(s[i]) else IdentifierContinue(s[i])
  }

  lemma {:induction false} NameIff(cps: seq<nat>, s: seq<Byte>)
    requires Spells(cps, s) && NoZero(s) && s != []
    ensures FollowsRules(s) <==> NameCharacters(cps)
  {
    FirstCharacter(cps, s);
    ZeroFree(cps, s);
    var c, rest := Encode(cps[0]), EncodeAll(cps[1..]);
    NoZeroAppend(c, rest);
    ContinuesIff(cps[1..], rest);
    ContinuingCons(cps);
    StartsAndContinues(s, c, rest);
    assert s[0] == c[0];
  }

  lemma {:induction false} StartsAndContinues(s: seq<Byte>, c: seq<Byte>, rest: seq<Byte>)
    requires s == c + rest && c != [] && (|c| == 1 || forall i | 0 <= i < |c| :: c[i] >= 0x80)
    ensures FollowsRules(s) <==> (c[0] < 0x80 ==> IdentifierStart(c[0])) && Continues(rest)
  {
    if FollowsRules(s) {
      assert s[0] == c[0];
      forall i | 0 <= i < |rest| && rest[i] < 0x80
        ensures IdentifierContinue(rest[i])
      {
        assert rest[i] == s[|c| + i];
      }
    }
    if (c[0] < 0x80 ==> IdentifierStart(c[0])) && Continues(rest) {
      forall i | 0 <= i < |s| && s[i] < 0x80
        ensures if i == 0 then IdentifierStart(s[i]) else IdentifierContinue(s[i])
      {
        if i >= |c| { assert s[i] == rest[i - |c|]; } else { assert s[i] == c[i]; }
      }
    }
  }

  // ----- plans -----

  /** The plans that can be encoded: operation 1 is a sum and 2 a count. */
  ghost predicate Admissible(plan: Plan) {
    && ((plan.operation == 1 && |plan.input| <= 250) || (plan.operation == 2 && |plan.input| <= 248))
    && Text(plan.source) && Text(plan.exportPath) && Name(plan.input)
    && 1 <= plan.limits.fileBytes <= 67108864 && 1 <= plan.limits.rows <= 5000
    && 1 <= plan.limits.columns <= 70 && 1 <= plan.limits.fieldBytes <= 1048576
    && (plan.spanPresent <==> plan.line >= 1) && (plan.spanPresent <==> plan.column >= 1)
  }

  lemma {:induction false} PlanIff(plan: Plan)
    ensures ValidPlan(plan) <==> Admissible(plan)
  {
    StringIff(plan.source);
    StringIff(plan.exportPath);
    IdentifierIff(plan.input);
  }

  predicate EndsIn(s: seq<Byte>, start: seq<Byte>, suffix: string) {
    && |s| == |start| + |suffix| && s[..|start|] == start
    && forall i | 0 <= i < |suffix| :: s[|start| + i] as int == suffix[i] as int
  }

  /** The result of a sum is called after its column, with "_suma", and that of a count with "_conteo". */
  lemma {:induction false} ResultIsNamed(plan: Plan)
    ensures plan.operation == 1 ==> EndsIn(ResultName(plan), plan.input, "_suma")
    ensures plan.operation == 2 ==> EndsIn(ResultName(plan), plan.input, "_conteo")
  {
  }

  predicate StringHolds(b: seq<Byte>, o: nat, s: seq<Byte>) {
    o + 4 + |s| <= |b| && Word(b, o) == |s| && b[o + 4..o + 4 + |s|] == s
  }

  predicate ModuleHolds(b: seq<Byte>)
    requires |b| >= 40
  {
    && b[0] == 0x4D && b[1] == 0x4C && b[2] == 0x42 && b[3] == 0x43
    && Half(b, 4) == 1 && Half(b, 6) == 3 && Half(b, 8) == 0 && Half(b, 10) == 1 && Word(b, 12) == 0
    && b[16] == 0x44 && b[17] == 0x50 && b[18] == 0x4C && b[19] == 0x4E
    && Half(b, 20) == 1 && Half(b, 22) == 0 && Word(b, 24) == |b| - 16
    && Word(b, 28) == 1 && Word(b, 32) == 1 && Word(b, 36) == 1
  }

  predicate LimitsHold(b: seq<Byte>, l: Limits)
    requires |b| >= 104
  {
    && Word(b, 40) == l.fileBytes && Word(b, 44) == l.rows && Word(b, 48) == l.columns && Word(b, 52) == l.fieldBytes
    && Word(b, 56) == 1 && Word(b, 60) == 4 && Word(b, 64) == |b| - 104 && Word(b, 68) == 0
  }

  predicate RecordsHold(b: seq<Byte>, plan: Plan)
    requires |b| >= 104
  {
    && Word(b, 72) == 2 && b[76] == 1 && b[77] == 0 && Half(b, 78) == 0
    && b[80] == plan.operation && b[81] == 1 && Half(b, 82) == (if plan.spanPresent then 1 else 0)
    && Word(b, 84) == 2 && Word(b, 88) == 3 && Word(b, 92) == plan.line && Word(b, 96) == plan.column && Word(b, 100) == 0
  }

  predicate TableHolds(b: seq<Byte>, plan: Plan) {
    var o1 := 108 + |plan.source|;
    var o2 := o1 + 4 + |plan.exportPath|;
    var o3 := o2 + 4 + |plan.input|;
    && StringHolds(b, 104, plan.source) && StringHolds(b, o1, plan.exportPath) && StringHolds(b, o2, plan.input)
    && StringHolds(b, o3, ResultName(plan)) && |b| == o3 + 4 + |ResultName(plan)|
  }

  predicate PlanHolds(b: seq<Byte>, plan: Plan) {
    |b| >= 104 && ModuleHolds(b) && LimitsHold(b, plan.limits) && RecordsHold(b, plan) && TableHolds(b, plan)
  }

  /** Byte for byte, what the encoding of a plan is. */
  lemma {:induction false} PlanBytes(plan: Plan, b: seq<Byte>)
    requires ValidPlan(plan)
    ensures Short(plan) && (b == EncodedPlan(plan) <==> PlanHolds(b, plan))
  {
    ValidIsShort(plan);
    DataPlan.FieldsIff(b, plan);
    FieldsHold(b, plan);
  }

  ghost predicate HoldsAdmissible(b: seq<Byte>, plan: Plan) { Admissible(plan) && PlanHolds(b, plan) }

  /** The modules that the data verifier accepts. */
  lemma {:induction false} AcceptedPlans(b: seq<Byte>)
    ensures IsEncoding(b) <==> exists plan :: HoldsAdmissible(b, plan)
  {
    if plan :| Encodes(b, plan) {
      PlanIff(plan);
      PlanBytes(plan, b);
      assert HoldsAdmissible(b, plan);
    }
    if plan :| HoldsAdmissible(b, plan) {
      PlanIff(plan);
      PlanBytes(plan, b);
      assert Encodes(b, plan);
    }
  }

  lemma {:induction false} FieldsHold(b: seq<Byte>, plan: Plan)
    ensures Fields(b, plan) <==> PlanHolds(b, plan)
  {
    TableIff(b, plan);
    if |b| >= 104 {
      ModuleIff(b);
      LimitsIff(b, plan.limits);
      RecordsIff(b, plan);
    }
  }

  lemma {:induction false} TableIff(b: seq<Byte>, plan: Plan)
    ensures TableHolds(b, plan) <==> StringsAre(b, plan.source, plan.exportPath, plan.input, ResultName(plan))
    ensures TableHolds(b, plan) ==> |b| == 104 + TableBytes(plan)
  {
    var o1 := 108 + |plan.source|;
    var o2 := o1 + 4 + |plan.exportPath|;
    StringsIff(b, 104, plan.source);
    StringsIff(b, o1, plan.exportPath);
    StringsIff(b, o2, plan.input);
    StringsIff(b, o2 + 4 + |plan.input|, ResultName(plan));
  }

  lemma {:induction false} StringsIff(b: seq<Byte>, o: nat, s: seq<Byte>)
    ensures StringHolds(b, o, s) <==> StringAt(b, o, s)
  {
    if o + 4 <= |b| { WordIs(b, o); }
  }

  lemma {:induction false} ModuleIff(b: seq<Byte>)
    requires |b| >= 40
    ensures ModuleHolds(b) <==> HeaderFields(b) && SectionFields(b, |b| - 16)
  {
    HalfIs(b, 4);
    HalfIs(b, 6);
    HalfIs(b, 8);
    HalfIs(b, 10);
    WordIs(b, 12);
    HalfIs(b, 20);
    HalfIs(b, 22);
    WordIs(b, 24);
    WordIs(b, 28);
    WordIs(b, 32);
    WordIs(b, 36);
    assert b[0..4] == [b[0], b[1], b[2], b[3]] && b[16..20] == [b[16], b[17], b[18], b[19]];
  }

  lemma {:induction false} LimitsIff(b: seq<Byte>, l: Limits)
    requires |b| >= 104
    ensures LimitsHold(b, l) <==> LimitFieldsAre(b, |b| - 104, l)
  {
    WordIs(b, 40);
    WordIs(b, 44);
    WordIs(b, 48);
    WordIs(b, 52);
    WordIs(b, 56);
    WordIs(b, 60);
    WordIs(b, 64);
    WordIs(b, 68);
  }

  lemma {:induction false} RecordsIff(b: seq<Byte>, plan: Plan)
    requires |b| >= 104
    ensures RecordsHold(b, plan) <==> ColumnFields(b) && OperationFields(b, plan) && SpanFieldsAre(b, plan)
  {
    WordIs(b, 72);
    HalfIs(b, 78);
    HalfIs(b, 82);
    WordIs(b, 84);
    WordIs(b, 88);
    WordIs(b, 92);
    WordIs(b, 96);
    WordIs(b, 100);
  }

  // ----- refusals -----

  /** Everything in front of the column as it should be, but for the sizes of the limits. */
  predicate HeadHolds(b: seq<Byte>) {
    && 104 <= |b| <= 65536 && ModuleHolds(b)
    && Word(b, 56) == 1 && Word(b, 60) == 4 && Word(b, 64) == |b| - 104 && Word(b, 68) == 0
  }

  predicate LimitsInRange(b: seq<Byte>)
    requires |b| >= 104
  {
    && 1 <= Word(b, 40) <= 67108864 && 1 <= Word(b, 44) <= 5000
    && 1 <= Word(b, 48) <= 70 && 1 <= Word(b, 52) <= 1048576
  }

  predicate ColumnHolds(b: seq<Byte>)
    requires |b| >= 104
  {
    Word(b, 72) == 2 && b[76] == 1 && b[77] == 0 && Half(b, 78) == 0
  }

  /** Where a module names another version: in its header, or, if that is right, in the header of the section. */
  predicate OtherVersion(b: seq<Byte>)
    requires |b| >= 16
  {
    || Half(b, 4) != 1 || Half(b, 6) != 3
    || (&& 104 <= |b| && Half(b, 8) == 0 && Half(b, 10) == 1 && Word(b, 12) == 0
        && b[16] == 0x44 && b[17] == 0x50 && b[18] == 0x4C && b[19] == 0x4E && Half(b, 20) != 1)
  }

  /** Which bytes are refused with which status. */
  lemma {:induction false} RefusalsAre(b: seq<Byte>)
    ensures WrongMagic(b) <==> 16 <= |b| <= 65536 && !Magic(b)
    ensures WrongVersion(b) <==> 16 <= |b| <= 65536 && Magic(b) && OtherVersion(b)
    ensures OverLimits(b) <==> |b| > 65536 || (HeadHolds(b) && !LimitsInRange(b))
    ensures WrongOpcode(b) <==> HeadHolds(b) && LimitsInRange(b) && ColumnHolds(b) && b[80] != 1 && b[80] != 2
    ensures WrongType(b) <==>
              HeadHolds(b) && LimitsInRange(b) && ColumnHolds(b) && (b[80] == 1 || b[80] == 2) && b[81] != 1
  {
    if |b| >= 16 { MagicAndVersion(b); }
    if |b| >= 104 { HeadIff(b); }
  }

  lemma {:induction false} MagicAndVersion(b: seq<Byte>)
    requires |b| >= 16
    ensures Magic(b) <==> b[0..4] == MODULE_MAGIC
    ensures Magic(b) ==>
              (OtherVersion(b) <==>
                 || R16(b, 4) != 1 || R16(b, 6) != 3
                 || (STRINGS_AT <= |b| && HeaderFields(b) && b[16..20] == SECTION_MAGIC && R16(b, 20) != 1))
  {
    assert b[0..4] == [b[0], b[1], b[2], b[3]];
    HalfIs(b, 4);
    HalfIs(b, 6);
    HalfIs(b, 8);
    HalfIs(b, 10);
    WordIs(b, 12);
    if |b| >= 104 {
      assert b[16..20] == [b[16], b[17], b[18], b[19]];
      HalfIs(b, 20);
    }
  }

  lemma {:induction false} HeadIff(b: seq<Byte>)
    requires |b| >= 104
    ensures HeadHolds(b) <==> LayoutPasses(b)
    ensures LimitsInRange(b) <==> LimitsOk(LimitsIn(b))
    ensures ColumnHolds(b) <==> ColumnFields(b)
  {
    ModuleIff(b);
    LimitsIff(b, LimitsIn(b));
    WordIs(b, 40);
    WordIs(b, 44);
    WordIs(b, 48);
    WordIs(b, 52);
    WordIs(b, 72);
    HalfIs(b, 78);
  }
}
