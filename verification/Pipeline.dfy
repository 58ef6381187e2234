/** The pipeline end to end: source, compiler, verifier, machine and native backend. */
module Pipeline {
  import opened Wrappers
  import opened Floats
  import opened Hir
  import opened Bytecode
  import opened Compiler
  import opened CompilerCorrect
  import opened CompilerVerified
  import opened HirCompiler
  import opened Interpreter
  import opened Totality
  import opened Verifier
  import Native
  import NativeCorrect
  import opened Words
  import Wire

  /** A program that declares before it uses, once compiled, is accepted by the verifier and runs to the same
      end in the machine and in the generated C, for every budget: after n instructions it ends with the value
      of the source, or with a run-time error exactly where the source has one. */
  lemma {:induction false} SourceMachineAndNativeAgree(fp: FloatModel, hir: ScalarHir, p: Bytecode.Program)
      returns (n: nat, h: Halt)
    requires fp.WellBehaved() && Compile(fp, hir) == Some(p) && DefinitelyDeclared(hir)
    ensures VerifyStatus(fp, p) == Ok && |Table(p)| > 0 && Native.AllTranslatable(p)
    ensures Agrees(EvalProgram(fp, hir, MAX_CALL_DEPTH), h)
    ensures forall limit: nat ::
              Run(fp, p, MAX_CALL_DEPTH, limit) == if limit < n then StepLimit else Stopped(h, n)
    ensures forall limit: nat ::
              NativeCorrect.SameResult(Native.RunNative(fp, Native.ProgramOf(p), limit), Run(fp, p, MAX_CALL_DEPTH, limit))
  {
    CompiledCodeIsAccepted(fp, hir, p);
    n, h := DeclaredProgramsRunAsTheyMean(fp, hir, p);
    NativeCorrect.BackendIsFaithful(fp, p);
    forall limit: nat
      ensures NativeCorrect.SameResult(Native.RunNative(fp, Native.ProgramOf(p), limit), Run(fp, p, MAX_CALL_DEPTH, limit))
    {
      NativeCorrect.BackendAgreesAt(fp, p, limit);
    }
  }

  /** Compiling and running: the machine never refuses what the compiler has emitted. */
  method CompileAndRun(fp: FloatModel, hir: ScalarHir, maxSteps: nat) returns (r: Option<Execution>)
    requires fp.WellBehaved()
    ensures r.None? <==> Compile(fp, hir).None?
    ensures r.Some? ==>
              && |Table(Compile(fp, hir).value)| > 0
              && r.value == Ran(Run(fp, Compile(fp, hir).value, MAX_CALL_DEPTH, maxSteps))
  {
    var p := CompileHir(fp, hir);
    if p.None? { return None; }
    CompiledCodeIsAccepted(fp, hir, p.value);
    var e := Execute(fp, p.value, MAX_CALL_DEPTH, maxSteps);
    r := Some(e);
  }

  /** Compiling to bytes: encoding never fails, and the module decodes to what was compiled. */
  method CompileToModule(fp: FloatModel, hir: ScalarHir) returns (module': Option<seq<Byte>>)
    requires fp.WellBehaved()
    ensures module'.None? <==> Compile(fp, hir).None?
    ensures module'.Some? ==>
              && Wire.ModuleStatus(fp, module'.value) == Ok
              && Wire.HeaderStatus(module'.value) == Ok && Wire.Decoded(module'.value) == Compile(fp, hir).value
  {
    var p := CompileHir(fp, hir);
    if p.None? { return None; }
    CompiledCodeIsAccepted(fp, hir, p.value);
    Wire.AcceptedEncodes(fp, p.value);
    Wire.EncodedDecodes(fp, p.value);
    var bytes := EncodeWhole(fp, p.value);
    module' := Some(bytes);
  }

  /** Asks the encoder for the size, then encodes into a buffer of that size. */
  method EncodeWhole(fp: FloatModel, p: Program) returns (bytes: seq<Byte>)
    requires Wire.FieldsTyped(p) && Wire.EncodeStatus(fp, p) == Ok && Wire.Written(p) == p
    ensures Wire.Representable(p) && bytes == Wire.Encoded(p)
  {
    var none := new Byte[0];
    var status, required := Wire.Encode(fp, p, none);
    var out := new Byte[required];
    var written;
    status, written := Wire.Encode(fp, p, out);
    bytes := out[..written];
  }
}
