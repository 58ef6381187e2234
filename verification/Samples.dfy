/** Two families of small programs, from source to machine: an operation on two numbers, and a choice between them. */
module Samples {
  import opened Wrappers
  import opened Floats
  import opened Hir
  import Bytecode
  import opened Compiler
  import opened CompilerCorrect
  import opened Typing
  import opened Compilable
  import Lowering
  import Pipeline
  import Wire

  function Principal(body: seq<Stmt>): ScalarHir { ScalarHir([Function("principal", 1, [], body, Number, true)], []) }

  /** principal() returns x op y. */
  function Formula(op: CalcOp, x: Double, y: Double): ScalarHir {
    Principal([Return(Number, Binary(Number, Arithmetic(op), NumberLiteral(x), NumberLiteral(y)))])
  }

  /** principal() returns x if x compares so with y, and otherwise y. */
  function Choice(test: TestOp, x: Double, y: Double): ScalarHir {
    Principal([If(Binary(Boolean, Comparison(test), NumberLiteral(x), NumberLiteral(y)),
                  [Return(Number, NumberLiteral(x))], [Return(Number, NumberLiteral(y))])])
  }

  /** A program of one function that calls nothing. */
  lemma {:induction false} PrincipalFits(fp: FloatModel, body: seq<Stmt>)
    requires ListTyped(fp, FunctionSet(Principal(body).functions), Number, [], body) && ListReturns(body)
    requires forall id :: !ListCalls(body, id)
    requires ListNesting(body) <= 256 && ListRegisters(body) <= 256 && ListInstructions(body) < 65536
    ensures Fits(fp, Principal(body))
  {
    var fns := Principal(body).functions;
    assert IsMain(fns, 0);
    assert fns[..0] == [];
    if path: seq<Function> :| CallsItself(fns, path) {
      assert path[0] in fns && path[0] == fns[0];
      assert ListCalls(path[0].body, path[1].id);
    }
  }

  /** A list of one statement is that statement. */
  lemma {:induction false} OneStatement(fp: FloatModel, sigs: set<Function>, ret: Type, env: seq<Param>, s: Stmt)
    ensures ListTyped(fp, sigs, ret, env, [s]) <==> StmtTyped(fp, sigs, ret, env, s)
    ensures ListReturns([s]) <==> AlwaysReturns(s)
    ensures forall id :: ListCalls([s], id) <==> StmtCalls(s, id)
    ensures ListNesting([s]) == Nesting(s) && ListRegisters([s]) == StmtRegisters(s) && ListInstructions([s]) == StmtInstructions(s)
  {
    assert [s][1..] == [];
  }

  lemma {:induction false} OperandsTyped(fp: FloatModel, sigs: set<Function>, env: seq<Param>, ty: Type, op: Operator, x: Double, y: Double)
    requires fp.finite(x) && fp.finite(y) && (op, Number, Number, ty) in OPERATORS
    ensures var e := Binary(ty, op, NumberLiteral(x), NumberLiteral(y));
            ExprTyped(fp, sigs, env, e) && e.Type() == ty && Cost(e) == 3 && Height(e) == 1 && forall id :: !ExprCalls(e, id)
  {
  }

  lemma {:induction false} FormulaFits(fp: FloatModel, op: CalcOp, x: Double, y: Double)
    requires fp.finite(x) && fp.finite(y)
    ensures Fits(fp, Formula(op, x, y))
  {
    var hir := Formula(op, x, y);
    var body := hir.functions[0].body;
    OperandsTyped(fp, FunctionSet(hir.functions), [], Number, Arithmetic(op), x, y);
    OneStatement(fp, FunctionSet(hir.functions), Number, [], body[0]);
    PrincipalFits(fp, body);
  }

  lemma {:induction false} ReturnsLiteral(fp: FloatModel, sigs: set<Function>, env: seq<Param>, x: Double)
    requires fp.finite(x)
    ensures var body := [Stmt.Return(Number, NumberLiteral(x))];
            && ListTyped(fp, sigs, Number, env, body) && ListReturns(body) && DeclaredIn(body) == []
            && (forall id :: !ListCalls(body, id))
            && ListNesting(body) == 1 && ListRegisters(body) == 1 && ListInstructions(body) == 2
  {
    OneStatement(fp, sigs, Number, env, Stmt.Return(Number, NumberLiteral(x)));
    assert [Stmt.Return(Number, NumberLiteral(x))][1..] == [];
  }

  lemma {:induction false} ChoiceFits(fp: FloatModel, test: TestOp, x: Double, y: Double)
    requires fp.finite(x) && fp.finite(y)
    ensures Fits(fp, Choice(test, x, y))
  {
    var hir := Choice(test, x, y);
    var body, sigs := hir.functions[0].body, FunctionSet(hir.functions);
    OperandsTyped(fp, sigs, [], Boolean, Comparison(test), x, y);
    ReturnsLiteral(fp, sigs, [], x);
    ReturnsLiteral(fp, sigs, [], y);
    assert [] + DeclaredIn(body[0].thenBody) == [];
    OneStatement(fp, sigs, Number, [], body[0]);
    forall id
      ensures !ListCalls(body, id)
    {
      assert ListCalls(body, id) <==> StmtCalls(body[0], id);
      assert !ExprCalls(body[0].cond, id) && !ListCalls(body[0].thenBody, id) && !ListCalls(body[0].elseBody, id);
    }
    PrincipalFits(fp, body);
  }

  // ----- what they mean -----

  lemma {:induction false} ExecOne(fp: FloatModel, fns: seq<Function>, depth: nat, env: Env, s: Stmt)
    ensures ExecList(fp, fns, depth, env, [s]) == ExecStmt(fp, fns, depth, env, s)
  {
    assert [s][1..] == [];
  }

  lemma {:induction false} PrincipalMeans(fp: FloatModel, s: Stmt, depth: nat)
    ensures EvalProgram(fp, Principal([s]), depth) ==
              match ExecStmt(fp, Principal([s]).functions, depth, map[], s)
              case Done(Returned(v)) => Done(v)
              case Fault => Fault
              case _ => Stuck
  {
    ExecOne(fp, Principal([s]).functions, depth, map[], s);
  }

  lemma {:induction false} OperandsMean(
      fp: FloatModel, fns: seq<Function>, depth: nat, env: Env, ty: Type, op: Operator, x: Double, y: Double)
    ensures var e := Binary(ty, op, NumberLiteral(x), NumberLiteral(y));
            EvalExpr(fp, fns, depth, env, e) == ApplyOperator(fp, op, Num(x), Num(y)) && ExprDeclared({}, e)
  {
  }

  /** A formula that compiles means what the operation gives, and a fault where it gives nothing finite or the divisor is
      zero. */
  lemma {:induction false} FormulaMeans(fp: FloatModel, op: CalcOp, x: Double, y: Double, depth: nat)
    ensures EvalProgram(fp, Formula(op, x, y), depth)
         == if op == Divide && fp.isZero(y) then Fault
            else if fp.finite(fp.arith(op, x, y)) then Done(Num(fp.arith(op, x, y))) else Fault
  {
    var fns := Formula(op, x, y).functions;
    PrincipalMeans(fp, fns[0].body[0], depth);
    OperandsMean(fp, fns, depth, map[], Number, Arithmetic(op), x, y);
  }

  lemma {:induction false} ChoiceMeans(fp: FloatModel, test: TestOp, x: Double, y: Double, depth: nat)
    ensures EvalProgram(fp, Choice(test, x, y), depth) == Done(Num(if fp.test(test, x, y) then x else y))
  {
    var hir := Choice(test, x, y);
    PrincipalMeans(fp, hir.functions[0].body[0], depth);
    ExecOne(fp, hir.functions, depth, map[], Stmt.Return(Number, NumberLiteral(x)));
    ExecOne(fp, hir.functions, depth, map[], Stmt.Return(Number, NumberLiteral(y)));
  }

  // ----- how they run -----

  lemma {:induction false} PrincipalDeclares(s: Stmt)
    requires StmtDeclared({}, s).Some?
    ensures DefinitelyDeclared(Principal([s]))
  {
    assert ParamIds([]) == {};
    assert [s][1..] == [];
  }

  /** From source to machine: the program compiles and is accepted, and for every budget it ends with the result of the
      operation, or with a runtime error where there is none. */
  lemma {:induction false} FormulaRuns(fp: FloatModel, op: CalcOp, x: Double, y: Double)
      returns (p: Bytecode.Program, n: nat, h: Bytecode.Halt)
    requires fp.WellBehaved() && fp.finite(x) && fp.finite(y)
    ensures Compile(fp, Formula(op, x, y)) == Some(p) && |Bytecode.Table(p)| > 0
    ensures if (op == Divide && fp.isZero(y)) || !fp.finite(fp.arith(op, x, y)) then Bytecode.IsFault(h)
            else h == Bytecode.Finished(fp.arith(op, x, y))
    ensures forall limit: nat ::
              Bytecode.Run(fp, p, Bytecode.MAX_CALL_DEPTH, limit) == if limit < n then Bytecode.StepLimit else Bytecode.Stopped(h, n)
  {
    var hir := Formula(op, x, y);
    FormulaFits(fp, op, x, y);
    CompilesIff(fp, hir);
    p := Compile(fp, hir).value;
    OperandsMean(fp, [], 0, map[], Number, Arithmetic(op), x, y);
    PrincipalDeclares(hir.functions[0].body[0]);
    n, h := Pipeline.SourceMachineAndNativeAgree(fp, hir, p);
    FormulaMeans(fp, op, x, y, Bytecode.MAX_CALL_DEPTH);
  }

  lemma {:induction false} ReturnDeclares(x: Double)
    ensures ListDeclared({}, [Stmt.Return(Number, NumberLiteral(x))]) == Some(Ends)
  {
  }

  lemma {:induction false} ChoiceRuns(fp: FloatModel, test: TestOp, x: Double, y: Double)
      returns (p: Bytecode.Program, n: nat, h: Bytecode.Halt)
    requires fp.WellBehaved() && fp.finite(x) && fp.finite(y)
    ensures Compile(fp, Choice(test, x, y)) == Some(p) && |Bytecode.Table(p)| > 0
    ensures h == Bytecode.Finished(if fp.test(test, x, y) then x else y)
    ensures forall limit: nat ::
              Bytecode.Run(fp, p, Bytecode.MAX_CALL_DEPTH, limit) == if limit < n then Bytecode.StepLimit else Bytecode.Stopped(h, n)
  {
    var hir := Choice(test, x, y);
    ChoiceFits(fp, test, x, y);
    CompilesIff(fp, hir);
    p := Compile(fp, hir).value;
    ReturnDeclares(x);
    ReturnDeclares(y);
    PrincipalDeclares(hir.functions[0].body[0]);
    n, h := Pipeline.SourceMachineAndNativeAgree(fp, hir, p);
    ChoiceMeans(fp, test, x, y, Bytecode.MAX_CALL_DEPTH);
  }

  // ----- operators on the wire -----

  /** Each operator of the source with the byte of its instruction. */
  lemma {:induction false} OperatorBytes(op: Operator)
    ensures Wire.OpByte(Lowering.OpcodeOf(op)) ==
              match op
              case Arithmetic(Add) => 3
              case Arithmetic(Subtract) => 4
              case Arithmetic(Multiply) => 5
              case Arithmetic(Divide) => 6
              case Comparison(Equal) => 8
              case Comparison(NotEqual) => 9
              case Comparison(Less) => 10
              case Comparison(LessEqual) => 11
              case Comparison(Greater) => 12
              case Comparison(GreaterEqual) => 13
              case Unsupported => 0
  {
  }
}
