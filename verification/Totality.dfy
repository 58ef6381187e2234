/** A compiled program that declares its variables before it uses them always has a meaning: the type
    checks of the lowering and the ranking of calls leave the evaluator no way to get stuck. */
module Totality {
  import opened Wrappers
  import opened Floats
  import opened Hir
  import opened Bytecode
  import opened Lowering
  import opened LoweringFacts
  import opened CallGraph
  import opened Compiler
  import opened Simulation
  import opened CompilerCorrect

  /** Every variable with a value is bound, with the type of the value, and all of `declared` have values. */
  ghost predicate Typed(locals: seq<Local>, declared: set<nat>, env: Env) {
    && (forall id | id in declared :: id in env)
    && (forall id | id in env :: FindLocal(locals, id).Some? && env[id].Type() == FindLocal(locals, id).value.ty)
  }

  /** Function f of a well-formed world, with room for its calls. */
  ghost predicate Room(w: World, f: nat, d: nat) {
    WorldOk(w) && f < |w.fns| && FunctionOk(w, f) && w.rank[f] <= d && AllDeclared(w.fns)
  }

  ghost predicate AllDeclared(fns: seq<Function>) {
    forall f | 0 <= f < |fns| :: ListDeclared(ParamIds(fns[f].params), fns[f].body).Some?
  }

  ghost predicate ValueOf(out: Hir.Outcome<Value>, ty: Type) {
    !out.Stuck? && (out.Done? ==> out.value.Type() == ty)
  }

  ghost predicate ValuesOf(out: Hir.Outcome<seq<Value>>, params: seq<Param>) {
    && !out.Stuck?
    && (out.Done? ==> |out.value| == |params| && forall i | 0 <= i < |params| :: out.value[i].Type() == params[i].ty)
  }

  /** Where a statement leaves the environment, given what it surely declares. */
  ghost predicate FlowOf(out: Hir.Outcome<Flow>, ret: Type, after: After, r: LoweredBody) {
    && !out.Stuck?
    && (out.Done? && out.value.Returned? ==> out.value.value.Type() == ret)
    && (out.Done? && out.value.Next? ==>
          !r.ends && after.Falls? && Typed(r.draft.locals, after.declared, out.value.env))
  }

  /** More bindings keep the ones there are. */
  lemma {:induction false} FindLocalWider(s: Draft, t: Draft, base: nat, id: nat)
    requires s.locals <= t.locals && LocalsOk(t, base) && FindLocal(s.locals, id).Some?
    ensures FindLocal(t.locals, id) == FindLocal(s.locals, id)
  {
    FindLocalCorrect(s.locals, id);
    FindLocalCorrect(t.locals, id);
    var i :| 0 <= i < |s.locals| && s.locals[i] == FindLocal(s.locals, id).value && s.locals[i].id == id;
    assert t.locals[i].id == id;
  }

  lemma {:induction false} TypedWider(s: Draft, t: Draft, base: nat, declared: set<nat>, declared': set<nat>, env: Env)
    requires s.locals <= t.locals && LocalsOk(t, base) && Typed(s.locals, declared, env) && declared' <= declared
    ensures Typed(t.locals, declared', env)
  {
    forall id | id in env
      ensures FindLocal(t.locals, id) == FindLocal(s.locals, id)
    {
      FindLocalWider(s, t, base, id);
    }
  }

  // ----- expressions -----

  lemma {:induction false} ExprTotal(
      w: World, f: nat, s: Draft, e: Expr, depth: nat, d: nat, declared: set<nat>, env: Env)
    requires Room(w, f, d) && LocalsOk(s, Base(w, f)) && Small(s)
    requires LowerExpr(w.fp, w.fns, s, e, depth).Some? && ExprRanked(w.fns, w.rank, w.rank[f], e)
    requires Typed(s.locals, declared, env) && ExprDeclared(declared, e)
    ensures ValueOf(EvalExpr(w.fp, w.source, d, env, e), e.Type())
    decreases d, e, 1
  {
    match e
    case NumberLiteral(_) =>
    case BooleanLiteral(_) =>
    case Variable(_, _) =>
    case Binary(_, _, _, _) => BinaryTotal(w, f, s, e, depth, d, declared, env);
    case Call(_, _, _) => CallTotal(w, f, s, e, depth, d, declared, env);
  }

  lemma {:induction false} OperatorTotal(fp: FloatModel, ty: Type, op: Operator, lt: Type, rt: Type, x: Value, y: Value)
    requires BinaryTypes(ty, op, lt, rt) && x.Type() == lt && y.Type() == rt
    ensures ValueOf(ApplyOperator(fp, op, x, y), ty)
  {
  }

  lemma {:induction false} BinaryTotal(
      w: World, f: nat, s: Draft, e: Expr, depth: nat, d: nat, declared: set<nat>, env: Env)
    requires Room(w, f, d) && LocalsOk(s, Base(w, f)) && Small(s) && e.Binary?
    requires LowerExpr(w.fp, w.fns, s, e, depth).Some? && ExprRanked(w.fns, w.rank, w.rank[f], e)
    requires Typed(s.locals, declared, env) && ExprDeclared(declared, e)
    ensures ValueOf(EvalExpr(w.fp, w.source, d, env, e), e.Type())
    decreases d, e, 0
  {
    var Binary(ty, op, left, right) := e;
    LowerOperandsOk(w.fp, w.fns, s, Base(w, f), e, depth + 1);
    var x := LowerExpr(w.fp, w.fns, s, left, depth + 1).value;
    ExprTotal(w, f, s, left, depth + 1, d, declared, env);
    ExprTotal(w, f, x.draft, right, depth + 1, d, declared, env);
    var vx, vy := EvalExpr(w.fp, w.source, d, env, left), EvalExpr(w.fp, w.source, d, env, right);
    if vx.Done? && vy.Done? {
      OperatorTotal(w.fp, ty, op, left.Type(), right.Type(), vx.value, vy.value);
    }
  }

  lemma {:induction false} ArgsTotal(
      w: World, f: nat, s: Draft, args: seq<Expr>, params: seq<Param>, depth: nat, d: nat, declared: set<nat>, env: Env)
    requires Room(w, f, d) && LocalsOk(s, Base(w, f)) && Small(s) && |args| == |params|
    requires LowerArgs(w.fp, w.fns, s, args, params, depth).Some? && ArgsRanked(w.fns, w.rank, w.rank[f], args)
    requires Typed(s.locals, declared, env) && forall i | 0 <= i < |args| :: ExprDeclared(declared, args[i])
    ensures ValuesOf(EvalArgs(w.fp, w.source, d, env, args), params)
    decreases d, args, 0
  {
    if args != [] {
      var x := LowerExpr(w.fp, w.fns, s, args[0], depth).value;
      LowerExprOk(w.fp, w.fns, s, Base(w, f), args[0], depth);
      LocalsOkExtends(s, x.draft, Base(w, f));
      ExprTotal(w, f, s, args[0], depth, d, declared, env);
      ArgsTotal(w, f, x.draft, args[1..], params[1..], depth, d, declared, env);
      var v, vs := EvalExpr(w.fp, w.source, d, env, args[0]), EvalArgs(w.fp, w.source, d, env, args[1..]);
      if v.Done? && vs.Done? {
        forall i | 0 <= i < |params|
          ensures ([v.value] + vs.value)[i].Type() == params[i].ty
        {
          if i > 0 { assert vs.value[i - 1].Type() == params[1..][i - 1].ty; }
        }
      }
    }
  }

  /** The callee of a call that has been compiled. */
  lemma {:induction false} CalleeOf(w: World, f: nat, s: Draft, e: Expr, depth: nat) returns (g: nat)
    requires WorldOk(w) && f < |w.fns| && FunctionOk(w, f) && e.Call?
    requires LowerExpr(w.fp, w.fns, s, e, depth).Some? && ExprRanked(w.fns, w.rank, w.rank[f], e)
    ensures g < |w.fns| && FunctionOk(w, g) && w.fns[g].id == e.callee && w.rank[g] < w.rank[f]
    ensures |e.args| == |w.fns[g].params| && e.callType == w.fns[g].returnType
    ensures LowerArgs(w.fp, w.fns, s, e.args, w.fns[g].params, depth + 1).Some?
    ensures ArgsRanked(w.fns, w.rank, w.rank[f], e.args)
  {
    g := FunctionIndex(w.fns, e.callee).value;
    IndexFromCorrect(w.fns, e.callee, 0);
    assert FunctionOk(w, g);
  }

  /** The value of a call, from its arguments and the body of its callee. */
  lemma {:induction false} CallValue(w: World, d: nat, env: Env, e: Expr, g: nat)
    requires WorldOk(w) && g < |w.fns| && FunctionOk(w, g) && e.Call? && w.fns[g].id == e.callee
    requires d > 0 && ValuesOf(EvalArgs(w.fp, w.source, d, env, e.args), w.fns[g].params)
    requires var vs := EvalArgs(w.fp, w.source, d, env, e.args);
             vs.Done? ==>
               var out := ExecList(w.fp, w.source, d - 1, BindParams(w.fns[g].params, vs.value), w.fns[g].body);
               !out.Stuck? && (out.Done? ==> out.value.Returned? && out.value.value.Type() == w.fns[g].returnType)
    ensures ValueOf(EvalExpr(w.fp, w.source, d, env, e), w.fns[g].returnType)
  {
  }

  lemma {:induction false} CallTotal(
      w: World, f: nat, s: Draft, e: Expr, depth: nat, d: nat, declared: set<nat>, env: Env)
    requires Room(w, f, d) && LocalsOk(s, Base(w, f)) && Small(s) && e.Call?
    requires LowerExpr(w.fp, w.fns, s, e, depth).Some? && ExprRanked(w.fns, w.rank, w.rank[f], e)
    requires Typed(s.locals, declared, env) && ExprDeclared(declared, e)
    ensures ValueOf(EvalExpr(w.fp, w.source, d, env, e), e.Type())
    decreases d, e, 0
  {
    var g := CalleeOf(w, f, s, e, depth);
    ArgsTotal(w, f, s, e.args, w.fns[g].params, depth + 1, d, declared, env);
    var vs := EvalArgs(w.fp, w.source, d, env, e.args);
    if vs.Done? { BodyTotal(w, g, d - 1, vs.value); }
    CallValue(w, d, env, e, g);
  }

  // ----- statements -----

  lemma {:induction false} BodyTotal(w: World, g: nat, d: nat, values: seq<Value>)
    requires Room(w, g, d) && |values| == |w.fns[g].params|
    requires forall i | 0 <= i < |values| :: values[i].Type() == w.fns[g].params[i].ty
    ensures var out := ExecList(w.fp, w.source, d, BindParams(w.fns[g].params, values), w.fns[g].body);
            !out.Stuck? && (out.Done? ==> out.value.Returned? && out.value.value.Type() == w.fns[g].returnType)
    decreases d, w.fns[g].body, 2
  {
    BodySite(w, g);
    var params, s := w.fns[g].params, Opened(w, g);
    var env := BindParams(params, values);
    ParamsTyped(w, g, values);
    ListTotal(w, g, s, w.fns[g].body, 0, d, ParamIds(params), env);
  }

  lemma {:induction false} ParamsTyped(w: World, g: nat, values: seq<Value>)
    requires WorldOk(w) && g < |w.fns| && FunctionOk(w, g) && |values| == |w.fns[g].params|
    requires forall i | 0 <= i < |values| :: values[i].Type() == w.fns[g].params[i].ty
    ensures Typed(Opened(w, g).locals, ParamIds(w.fns[g].params), BindParams(w.fns[g].params, values))
  {
    BodySite(w, g);
    var params, locals := w.fns[g].params, Opened(w, g).locals;
    forall i, j | 0 <= i < j < |params|
      ensures params[i].id != params[j].id
    {
      assert locals[i].id != locals[j].id;
    }
    BindParamsAt(params, values);
    var env := BindParams(params, values);
    forall id | id in env
      ensures FindLocal(locals, id).Some? && env[id].Type() == FindLocal(locals, id).value.ty
    {
      var i :| 0 <= i < |params| && params[i].id == id;
      assert locals[i] == Local(id, Base(w, g) + i, params[i].ty);
      FindLocalCorrect(locals, id);
    }
  }

  lemma {:induction false} ListTotal(
      w: World, f: nat, s: Draft, ss: seq<Stmt>, depth: nat, d: nat, declared: set<nat>, env: Env)
    requires Room(w, f, d) && LocalsOk(s, Base(w, f)) && Small(s)
    requires LowerList(w.fp, w.fns, w.fns[f].returnType, s, ss, depth).Some?
    requires ListRanked(w.fns, w.rank, w.rank[f], ss)
    requires Typed(s.locals, declared, env) && ListDeclared(declared, ss).Some?
    ensures FlowOf(ExecList(w.fp, w.source, d, env, ss), w.fns[f].returnType, ListDeclared(declared, ss).value,
                   LowerList(w.fp, w.fns, w.fns[f].returnType, s, ss, depth).value)
    decreases d, ss, 1
  {
    if ss != [] {
      var r := LowerStmt(w.fp, w.fns, w.fns[f].returnType, s, ss[0], depth).value;
      LowerStmtOk(w.fp, w.fns, w.fns[f].returnType, s, Base(w, f), ss[0], depth);
      StmtTotal(w, f, s, ss[0], depth, d, declared, env);
      var out := ExecStmt(w.fp, w.source, d, env, ss[0]);
      if out.Done? && out.value.Next? {
        var after := StmtDeclared(declared, ss[0]).value;
        if |ss| > 1 {
          ListTotal(w, f, r.draft, ss[1..], depth, d, after.declared, out.value.env);
        } else {
          assert ss[1..] == [];
        }
      }
    }
  }

  lemma {:induction false} StmtTotal(
      w: World, f: nat, s: Draft, t: Stmt, depth: nat, d: nat, declared: set<nat>, env: Env)
    requires Room(w, f, d) && LocalsOk(s, Base(w, f)) && Small(s)
    requires LowerStmt(w.fp, w.fns, w.fns[f].returnType, s, t, depth).Some?
    requires StmtRanked(w.fns, w.rank, w.rank[f], t)
    requires Typed(s.locals, declared, env) && StmtDeclared(declared, t).Some?
    ensures FlowOf(ExecStmt(w.fp, w.source, d, env, t), w.fns[f].returnType, StmtDeclared(declared, t).value,
                   LowerStmt(w.fp, w.fns, w.fns[f].returnType, s, t, depth).value)
    decreases d, t, 1
  {
    match t
    case Declare(ty, id, init) => DeclareTotal(w, f, s, t, depth, d, declared, env);
    case Assign(ty, id, value) =>
      ExprTotal(w, f, s, value, 0, d, declared, env);
      LowerExprOk(w.fp, w.fns, s, Base(w, f), value, 0);
    case Return(_, result) => ExprTotal(w, f, s, result, 0, d, declared, env);
    case If(_, _, _) => IfTotal(w, f, s, t, depth, d, declared, env);
  }

  lemma {:induction false} DeclareTotal(
      w: World, f: nat, s: Draft, t: Stmt, depth: nat, d: nat, declared: set<nat>, env: Env)
    requires Room(w, f, d) && LocalsOk(s, Base(w, f)) && Small(s) && t.Declare?
    requires LowerStmt(w.fp, w.fns, w.fns[f].returnType, s, t, depth).Some?
    requires StmtRanked(w.fns, w.rank, w.rank[f], t)
    requires Typed(s.locals, declared, env) && StmtDeclared(declared, t).Some?
    ensures FlowOf(ExecStmt(w.fp, w.source, d, env, t), w.fns[f].returnType, StmtDeclared(declared, t).value,
                   LowerStmt(w.fp, w.fns, w.fns[f].returnType, s, t, depth).value)
    decreases d, t, 0
  {
    var Declare(ty, id, init) := t;
    var s2 := Bind(Allocate(s, ty).value, id, |s.types|, ty).value;
    BindOk(s, Base(w, f), id, ty);
    TypedWider(s, s2, Base(w, f), declared, declared, env);
    ExprTotal(w, f, s2, init, 0, d, declared, env);
    LowerExprOk(w.fp, w.fns, s2, Base(w, f), init, 0);
  }

  lemma {:induction false} IfTotal(
      w: World, f: nat, s: Draft, t: Stmt, depth: nat, d: nat, declared: set<nat>, env: Env)
    requires Room(w, f, d) && LocalsOk(s, Base(w, f)) && Small(s) && t.If?
    requires LowerStmt(w.fp, w.fns, w.fns[f].returnType, s, t, depth).Some?
    requires StmtRanked(w.fns, w.rank, w.rank[f], t)
    requires Typed(s.locals, declared, env) && StmtDeclared(declared, t).Some?
    ensures FlowOf(ExecStmt(w.fp, w.source, d, env, t), w.fns[f].returnType, StmtDeclared(declared, t).value,
                   LowerStmt(w.fp, w.fns, w.fns[f].returnType, s, t, depth).value)
    decreases d, t, 0
  {
    var ret := w.fns[f].returnType;
    IfParts(w.fp, w.fns, ret, s, Base(w, f), t, depth);
    ExprTotal(w, f, s, t.cond, 0, d, declared, env);
    var c := EvalExpr(w.fp, w.source, d, env, t.cond);
    if c.Done? {
      if c.value.flag { ThenTotal(w, f, s, t, depth, d, declared, env); }
      else { ElseTotal(w, f, s, t, depth, d, declared, env); }
    }
  }

  lemma {:induction false} ThenTotal(
      w: World, f: nat, s: Draft, t: Stmt, depth: nat, d: nat, declared: set<nat>, env: Env)
    requires Room(w, f, d) && LocalsOk(s, Base(w, f)) && Small(s) && t.If?
    requires LowerStmt(w.fp, w.fns, w.fns[f].returnType, s, t, depth).Some?
    requires StmtRanked(w.fns, w.rank, w.rank[f], t)
    requires Typed(s.locals, declared, env) && StmtDeclared(declared, t).Some?
    ensures FlowOf(ExecList(w.fp, w.source, d, env, t.thenBody), w.fns[f].returnType, StmtDeclared(declared, t).value,
                   LowerStmt(w.fp, w.fns, w.fns[f].returnType, s, t, depth).value)
    decreases d, t.thenBody, 2
  {
    var ret := w.fns[f].returnType;
    IfParts(w.fp, w.fns, ret, s, Base(w, f), t, depth);
    LowerStmtOk(w.fp, w.fns, ret, s, Base(w, f), t, depth);
    ListTotal(w, f, IfHead(w.fp, w.fns, s, t), t.thenBody, depth + 1, d, declared, env);
    var out := ExecList(w.fp, w.source, d, env, t.thenBody);
    if out.Done? && out.value.Next? {
      var a, r := IfThen(w.fp, w.fns, ret, s, t, depth).value, LowerStmt(w.fp, w.fns, ret, s, t, depth).value;
      var after := ListDeclared(declared, t.thenBody).value;
      TypedWider(a.draft, r.draft, Base(w, f), after.declared, StmtDeclared(declared, t).value.declared, out.value.env);
    }
  }

  lemma {:induction false} ElseTotal(
      w: World, f: nat, s: Draft, t: Stmt, depth: nat, d: nat, declared: set<nat>, env: Env)
    requires Room(w, f, d) && LocalsOk(s, Base(w, f)) && Small(s) && t.If?
    requires LowerStmt(w.fp, w.fns, w.fns[f].returnType, s, t, depth).Some?
    requires StmtRanked(w.fns, w.rank, w.rank[f], t)
    requires Typed(s.locals, declared, env) && StmtDeclared(declared, t).Some?
    ensures FlowOf(ExecList(w.fp, w.source, d, env, t.elseBody), w.fns[f].returnType, StmtDeclared(declared, t).value,
                   LowerStmt(w.fp, w.fns, w.fns[f].returnType, s, t, depth).value)
    decreases d, t.elseBody, 2
  {
    var ret := w.fns[f].returnType;
    IfParts(w.fp, w.fns, ret, s, Base(w, f), t, depth);
    LowerStmtOk(w.fp, w.fns, ret, s, Base(w, f), t, depth);
    var m, r := IfMiddle(w.fp, w.fns, ret, s, t, depth), LowerStmt(w.fp, w.fns, ret, s, t, depth).value;
    TypedWider(s, m, Base(w, f), declared, declared, env);
    if t.elseBody == [] {
      TypedWider(s, r.draft, Base(w, f), declared, StmtDeclared(declared, t).value.declared, env);
    } else {
      ListTotal(w, f, m, t.elseBody, depth + 1, d, declared, env);
      var e := LowerList(w.fp, w.fns, ret, m, t.elseBody, depth + 1).value;
      ElseFlow(e, r, Base(w, f), ret, ListDeclared(declared, t.elseBody).value, StmtDeclared(declared, t).value,
               ExecList(w.fp, w.source, d, env, t.elseBody));
    }
  }

  lemma {:induction false} ElseFlow(
      e: LoweredBody, r: LoweredBody, base: nat, ret: Type, inner: After, after: After, out: Hir.Outcome<Flow>)
    requires FlowOf(out, ret, inner, e) && e.draft.locals <= r.draft.locals && LocalsOk(r.draft, base)
    requires !e.ends && inner.Falls? ==> !r.ends && after.Falls? && after.declared <= inner.declared
    ensures FlowOf(out, ret, after, r)
  {
    if out.Done? && out.value.Next? {
      TypedWider(e.draft, r.draft, base, inner.declared, after.declared, out.value.env);
    }
  }

  // ----- programs -----

  /** A compiled program with definite declaration has a meaning, with no more nested calls than functions. */
  lemma {:induction false} CompiledProgramHasMeaning(fp: FloatModel, hir: ScalarHir, p: Bytecode.Program, depth: nat)
    requires fp.WellBehaved() && Compile(fp, hir) == Some(p) && DefinitelyDeclared(hir)
    requires |hir.functions| <= depth + 1
    ensures !EvalProgram(fp, hir, depth).Stuck?
  {
    var pre, g, rank := CompiledOf(fp, hir, p);
    var w := WorldOf(fp, hir, p, |hir.functions|, pre, g, rank);
    WorldOfOk(fp, hir, p, |hir.functions|, pre, g, rank);
    OrderedFacts(hir);
    assert FunctionOk(w, 0);
    forall f | 0 <= f < |w.fns|
      ensures ListDeclared(ParamIds(w.fns[f].params), w.fns[f].body).Some?
    {
      assert w.fns[f] in hir.functions;
    }
    BodyTotal(w, 0, depth, []);
  }

  /** For programs that declare before use the machine and the source agree with nothing left open: under
      the default limits the run stops by itself after n instructions with the value of the source or with
      its run-time error. */
  lemma {:induction false} DeclaredProgramsRunAsTheyMean(fp: FloatModel, hir: ScalarHir, p: Bytecode.Program)
      returns (n: nat, h: Halt)
    requires fp.WellBehaved() && Compile(fp, hir) == Some(p) && DefinitelyDeclared(hir)
    ensures |Table(p)| > 0 && Agrees(EvalProgram(fp, hir, MAX_CALL_DEPTH), h)
    ensures forall limit: nat ::
              Run(fp, p, MAX_CALL_DEPTH, limit) == if limit < n then StepLimit else Stopped(h, n)
  {
    CompiledProgramHasMeaning(fp, hir, p, MAX_CALL_DEPTH);
    n, h := SemanticPreservation(fp, hir, p, MAX_CALL_DEPTH, MAX_CALL_DEPTH);
  }

  // ----- without definite declaration -----

  /** A variable whose initializer is the variable itself. */
  function SelfDeclared(): ScalarHir {
    var x := Variable(Number, 2);
    ScalarHir([Function("principal", 1, [], [Declare(Number, 2, x), Stmt.Return(Number, x)], Number, true)], [])
  }

  /** A declaration binds its variable before its initializer is lowered, so a program that uses a variable
      in its own initializer is accepted though it has no meaning; the code reads the register as it was. */
  lemma {:induction false} SelfDeclarationIsAccepted(fp: FloatModel, depth: nat)
    requires fp.WellBehaved()
    ensures !DefinitelyDeclared(SelfDeclared()) && EvalProgram(fp, SelfDeclared(), depth).Stuck?
    ensures Compile(fp, SelfDeclared()) == Some(SelfDeclaredCode())
    ensures |Table(SelfDeclaredCode())| > 0
    ensures Run(fp, SelfDeclaredCode(), MAX_CALL_DEPTH, DEFAULT_STEP_LIMIT) == Stopped(Finished(ZERO), 2)
  {
    var hir, p := SelfDeclared(), SelfDeclaredCode();
    var fns := Ordered(hir);
    assert fns == hir.functions;
    assert ListDeclared(ParamIds([]), fns[0].body).None?;
    assert ExecStmt(fp, fns, depth, map[], fns[0].body[0]).Stuck?;
    assert Hir.Named(fns, "principal") == Some(fns[0]);
    SelfDeclarationCompiles(fp, fns);
    SelfDeclarationRuns(fp);
  }

  function SelfDeclaredCode(): Bytecode.Program {
    Bytecode.Program(TYPED_MINOR, 1,
      [Instruction(FunctionMark, 0, 0, 0, ZERO), Instruction(Move, 0, 0, 0, ZERO),
       Instruction(Opcode.Return, 0, 0, 0, ZERO)],
      [NUMBER_TAG], [NUMBER_TAG])
  }

  lemma {:induction false} SelfDeclarationCompiles(fp: FloatModel, fns: seq<Function>)
    requires fns == SelfDeclared().functions && Admitted(SelfDeclared()) && Ordered(SelfDeclared()) == fns
    ensures Compile(fp, SelfDeclared()) == Some(SelfDeclaredCode())
  {
    var body, x := fns[0].body, Variable(Number, 2);
    assert body == [Declare(Number, 2, x), Stmt.Return(Number, x)] && body[1..] == [body[1]] && body[1..][1..] == [];
    var none: set<nat> := {};
    assert none + none == none && [] + [none] == [none];
    assert ListCallees(fns, [], 0) == Some(none);
    assert ListCallees(fns, body[1..], 0) == Some(none);
    assert ListCallees(fns, body, 0) == Some(none);
    assert SourceGraph(fns, 0) == Some([]);
    assert SourceGraph(fns, 1) == Some([none]);
    assert IsRank([{}], [0]);
    var mark := Instruction(FunctionMark, 0, 0, 0, ZERO);
    var o := Draft([mark], [], []);
    assert [] + [mark] == [mark];
    assert Emit(Draft([], [], []), mark) == Some(o);
    assert OpenFunction(Draft([], [], []), 0, []) == Some(o);
    var bound := Draft([mark], [Local(2, 0, Number)], [NUMBER_TAG]);
    assert [] + [Tag(Number)] == [NUMBER_TAG];
    assert Allocate(o, Number) == Some(Draft([mark], [], [NUMBER_TAG]));
    assert [] + [Local(2, 0, Number)] == [Local(2, 0, Number)];
    assert Bind(Draft([mark], [], [NUMBER_TAG]), 2, 0, Number) == Some(bound);
    assert LowerExpr(fp, fns, bound, x, 0) == Some(Lowered(bound, 0));
    var s1 := Draft([mark, Instruction(Move, 0, 0, 0, ZERO)], [Local(2, 0, Number)], [NUMBER_TAG]);
    assert [mark] + [Instruction(Move, 0, 0, 0, ZERO)] == s1.code;
    assert Emit(bound, Instruction(Move, 0, 0, 0, ZERO)) == Some(s1);
    assert LowerStmt(fp, fns, Number, o, body[0], 0) == Some(LoweredBody(s1, false));
    assert LowerExpr(fp, fns, s1, x, 0) == Some(Lowered(s1, 0));
    assert s1.code + [Instruction(Opcode.Return, 0, 0, 0, ZERO)] == SelfDeclaredCode().code;
    assert LowerStmt(fp, fns, Number, s1, body[1], 0)
        == Some(LoweredBody(s1.(code := SelfDeclaredCode().code), true));
    assert LowerList(fp, fns, Number, s1, body[1..], 0) == LowerStmt(fp, fns, Number, s1, body[1], 0);
    assert LowerFirst(fp, fns, 1) == LowerFunction(fp, fns, Draft([], [], []), 0);
    assert ReturnTags(fns) == [NUMBER_TAG];
  }

  lemma {:induction false} SelfDeclarationRuns(fp: FloatModel)
    requires fp.WellBehaved()
    ensures |Table(SelfDeclaredCode())| > 0
    ensures Run(fp, SelfDeclaredCode(), MAX_CALL_DEPTH, DEFAULT_STEP_LIMIT) == Stopped(Finished(ZERO), 2)
  {
    var p := SelfDeclaredCode();
    assert Markers(p.code, 3) == [] && Markers(p.code, 2) == [] && Markers(p.code, 1) == [];
    assert Markers(p.code, 0) == [0];
    var st := InitialState(p);
    assert st.pc == 1 && st.regs == [ZERO];
    var next := State(2, [ZERO], []);
    assert Step(fp, p, MAX_CALL_DEPTH, st) == Running(next);
    assert Step(fp, p, MAX_CALL_DEPTH, next) == Halted(Finished(ZERO));
    assert RunFrom(fp, p, MAX_CALL_DEPTH, DEFAULT_STEP_LIMIT, next, 1) == Stopped(Finished(ZERO), 2);
  }
}
