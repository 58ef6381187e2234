/** Exactly which programs compile. */
module Compilable {
  import opened Wrappers
  import opened Floats
  import opened Hir
  import opened Bytecode
  import opened Lowering
  import opened CallGraph
  import opened Compiler
  import opened Typing

  // ----- who calls whom -----

  /** The expression contains a call of this function. */
  predicate ExprCalls(e: Expr, id: nat) {
    match e
    case Binary(_, _, left, right) => ExprCalls(left, id) || ExprCalls(right, id)
    case Call(_, callee, args) => callee == id || exists k :: 0 <= k < |args| && ExprCalls(args[k], id)
    case _ => false
  }

  predicate StmtCalls(s: Stmt, id: nat)
    decreases s
  {
    match s
    case Declare(_, _, init) => ExprCalls(init, id)
    case Assign(_, _, value) => ExprCalls(value, id)
    case Return(_, result) => ExprCalls(result, id)
    case If(cond, thenBody, elseBody) => ExprCalls(cond, id) || ListCalls(thenBody, id) || ListCalls(elseBody, id)
  }

  predicate ListCalls(ss: seq<Stmt>, id: nat)
    decreases ss
  {
    ss != [] && (StmtCalls(ss[0], id) || ListCalls(ss[1..], id))
  }

  /** Functions each of which calls the next, back to the first. */
  ghost predicate CallsItself(functions: seq<Function>, path: seq<Function>) {
    && |path| >= 2 && path[0] == path[|path| - 1] && (forall i | 0 <= i < |path| :: path[i] in functions)
    && forall i, j | 0 <= i < j < |path| && j == i + 1 :: ListCalls(path[i].body, path[j].id)
  }

  ghost predicate Recursive(functions: seq<Function>) { exists path :: CallsItself(functions, path) }

  // ----- programs that compile -----

  ghost predicate IsMain(functions: seq<Function>, m: nat) {
    && m < |functions| && functions[m].name == "principal" && functions[m].params == [] && functions[m].returnType == Number
    && forall i | 0 <= i < |functions| && i != m :: functions[i].name != "principal"
  }

  /** Between 1 and 64 functions with symbols of their own, all resolved, one of them the entry; nothing outside them. */
  ghost predicate WellFormed(hir: ScalarHir) {
    && hir.globals == [] && 1 <= |hir.functions| <= 64
    && (forall i | 0 <= i < |hir.functions| :: hir.functions[i].id != 0 && hir.functions[i].resolved)
    && (forall i, j | 0 <= i < j < |hir.functions| :: hir.functions[i].id != hir.functions[j].id)
    && exists m :: IsMain(hir.functions, m)
  }

  ghost predicate WellTyped(fp: FloatModel, functions: seq<Function>) {
    forall i | 0 <= i < |functions| :: FunctionTyped(fp, FunctionSet(functions), functions[i])
  }

  /** Well formed, not recursive, well typed, nested at most 256 deep, and within 256 registers and 65536
      instructions. */
  ghost predicate Fits(fp: FloatModel, hir: ScalarHir) {
    && WellFormed(hir) && !Recursive(hir.functions) && WellTyped(fp, hir.functions)
    && (forall i | 0 <= i < |hir.functions| :: ListNesting(hir.functions[i].body) <= 256)
    && Registers(hir.functions) <= 256 && Instructions(hir.functions) <= 65536
  }

  // ----- admission -----

  lemma {:induction false} AdmittedIff(fp: FloatModel, hir: ScalarHir)
    requires WellTyped(fp, hir.functions)
    ensures Admitted(hir) <==> WellFormed(hir)
  {
    if Admitted(hir) {
      var k := PrincipalFrom(hir.functions, 0).value;
      assert forall i | 0 <= i < |hir.functions| :: SignatureOk(hir.functions[i]);
      assert IsMain(hir.functions, k);
    }
    if WellFormed(hir) {
      var m: nat :| IsMain(hir.functions, m);
      assert Compiler.Named(hir.functions[m]);
      forall i | 0 <= i < |hir.functions|
        ensures SignatureOk(hir.functions[i])
      {
        assert FunctionTyped(fp, FunctionSet(hir.functions), hir.functions[i]);
      }
    }
  }

  /** Where a function is in the order of compilation, and where it comes from. */
  lemma {:induction false} OrderedAt(hir: ScalarHir, i: nat)
    requires Admitted(hir) && i < |hir.functions|
    ensures var k := PrincipalFrom(hir.functions, 0).value;
            && |Ordered(hir)| == |hir.functions|
            && hir.functions[i] == Ordered(hir)[if i == k then 0 else if i < k then i + 1 else i]
            && Ordered(hir)[i] == hir.functions[if i == 0 then k else if i <= k then i - 1 else i]
  {
  }

  /** The order of compilation has the same functions, the same total counts. */
  lemma {:induction false} OrderedSame(hir: ScalarHir)
    requires Admitted(hir)
    ensures var fns := Ordered(hir);
            && Signatures(fns) && |fns| == |hir.functions|
            && (forall f :: f in fns <==> f in hir.functions) && FunctionSet(fns) == FunctionSet(hir.functions)
            && Registers(fns) == Registers(hir.functions) && Instructions(fns) == Instructions(hir.functions)
  {
    var fns, h := Ordered(hir), hir.functions;
    forall f
      ensures f in fns <==> f in h
    {
      if i :| 0 <= i < |fns| && fns[i] == f { OrderedAt(hir, i); }
      if i :| 0 <= i < |h| && h[i] == f { OrderedAt(hir, i); }
    }
    OrderedSignatures(hir);
    OrderedTotals(h, PrincipalFrom(h, 0).value);
  }

  lemma {:induction false} OrderedSignatures(hir: ScalarHir)
    requires Admitted(hir)
    ensures Signatures(Ordered(hir))
  {
    var fns := Ordered(hir);
    forall i | 0 <= i < |fns|
      ensures fns[i].id != 0 && fns[i].resolved
    {
      OrderedAt(hir, i);
      assert SignatureOk(hir.functions[if i == 0 then PrincipalFrom(hir.functions, 0).value
                                       else if i <= PrincipalFrom(hir.functions, 0).value then i - 1 else i]);
    }
    forall i, j | 0 <= i < j < |fns|
      ensures fns[i].id != fns[j].id
    {
      OrderedAt(hir, i);
      OrderedAt(hir, j);
    }
  }

  lemma {:induction false} OrderedTotals(h: seq<Function>, k: nat)
    requires k < |h|
    ensures var fns := [h[k]] + h[..k] + h[k + 1..];
            Registers(fns) == Registers(h) && Instructions(fns) == Instructions(h)
  {
    TotalsAppend([h[k]] + h[..k], h[k + 1..]);
    TotalsAppend([h[k]], h[..k]);
    TotalsAppend(h[..k] + [h[k]], h[k + 1..]);
    TotalsAppend(h[..k], [h[k]]);
    assert h == h[..k] + [h[k]] + h[k + 1..];
  }

  // ----- the call graph -----

  /** Callees are collected unless the expression is too deep, and they are the functions it calls. */
  lemma {:induction false} ExprCalleesIff(
      fp: FloatModel, fns: seq<Function>, env: seq<Param>, e: Expr, depth: nat)
    requires Signatures(fns) && ExprTyped(fp, FunctionSet(fns), env, e)
    ensures ExprCallees(fns, e, depth).Some? <==> depth + Height(e) <= MAX_DEPTH
    ensures ExprCallees(fns, e, depth).Some? ==>
              forall g | 0 <= g < |fns| :: g in ExprCallees(fns, e, depth).value <==> ExprCalls(e, fns[g].id)
    decreases e, 1
  {
    match e
    case Binary(_, _, left, right) =>
      ExprCalleesIff(fp, fns, env, left, depth + 1);
      ExprCalleesIff(fp, fns, env, right, depth + 1);
    case Call(ty, callee, args) =>
      CalleeIs(fns, ty, callee, args);
      ArgsCalleesIff(fp, fns, env, args, depth + 1);
    case _ =>
  }

  lemma {:induction false} CalleeIs(fns: seq<Function>, ty: Type, callee: nat, args: seq<Expr>)
    requires Signatures(fns) && exists f :: f in FunctionSet(fns) && Applies(f, callee, ty, args)
    ensures LastIndex(fns, callee, |fns|).Some?
    ensures forall g | 0 <= g < |fns| :: g == LastIndex(fns, callee, |fns|).value <==> fns[g].id == callee
  {
    var f :| f in FunctionSet(fns) && Applies(f, callee, ty, args);
    var i :| 0 <= i < |fns| && fns[i] == f;
  }

  lemma {:induction false} ArgsCalleesIff(
      fp: FloatModel, fns: seq<Function>, env: seq<Param>, args: seq<Expr>, depth: nat)
    requires Signatures(fns) && depth > 0 && forall k | 0 <= k < |args| :: ExprTyped(fp, FunctionSet(fns), env, args[k])
    ensures ArgsCallees(fns, args, depth).Some? <==> depth - 1 + ArgsHeight(args) <= Larger(MAX_DEPTH, depth - 1)
    ensures ArgsCallees(fns, args, depth).Some? ==>
              forall g | 0 <= g < |fns| ::
                g in ArgsCallees(fns, args, depth).value <==> exists k :: 0 <= k < |args| && ExprCalls(args[k], fns[g].id)
    decreases args, 0
  {
    if args != [] {
      ExprCalleesIff(fp, fns, env, args[0], depth);
      ArgsCalleesIff(fp, fns, env, args[1..], depth);
      forall g | 0 <= g < |fns|
        ensures (exists k :: 0 <= k < |args| && ExprCalls(args[k], fns[g].id))
           <==> ExprCalls(args[0], fns[g].id) || exists k :: 0 <= k < |args[1..]| && ExprCalls(args[1..][k], fns[g].id)
      {
        SomeArg(args, fns[g].id);
      }
    }
  }

  lemma {:induction false} SomeArg(args: seq<Expr>, id: nat)
    requires args != []
    ensures (exists k :: 0 <= k < |args| && ExprCalls(args[k], id))
       <==> ExprCalls(args[0], id) || exists k :: 0 <= k < |args[1..]| && ExprCalls(args[1..][k], id)
  {
    if k :| 0 <= k < |args| && ExprCalls(args[k], id) {
      if k > 0 { assert args[1..][k - 1] == args[k]; }
    }
    if k :| 0 <= k < |args[1..]| && ExprCalls(args[1..][k], id) { assert args[k + 1] == args[1..][k]; }
  }

  lemma {:induction false} StmtCalleesIff(
      fp: FloatModel, fns: seq<Function>, ret: Type, env: seq<Param>, s: Stmt, depth: nat)
    requires Signatures(fns) && StmtTyped(fp, FunctionSet(fns), ret, env, s)
    ensures StmtCallees(fns, s, depth).Some? <==> depth + Nesting(s) <= MAX_DEPTH
    ensures StmtCallees(fns, s, depth).Some? ==>
              forall g | 0 <= g < |fns| :: g in StmtCallees(fns, s, depth).value <==> StmtCalls(s, fns[g].id)
    decreases s, 0
  {
    match s
    case Declare(ty, id, init) => ExprCalleesIff(fp, fns, env + [Param(id, ty)], init, depth + 1);
    case Assign(_, _, value) => ExprCalleesIff(fp, fns, env, value, depth + 1);
    case Return(_, result) => ExprCalleesIff(fp, fns, env, result, depth + 1);
    case If(cond, thenBody, elseBody) =>
      ExprCalleesIff(fp, fns, env, cond, depth + 1);
      ListCalleesIff(fp, fns, ret, env, thenBody, depth + 1);
      ListCalleesIff(fp, fns, ret, env + DeclaredIn(thenBody), elseBody, depth + 1);
  }

  lemma {:induction false} ListCalleesIff(
      fp: FloatModel, fns: seq<Function>, ret: Type, env: seq<Param>, ss: seq<Stmt>, depth: nat)
    requires Signatures(fns) && ListTyped(fp, FunctionSet(fns), ret, env, ss)
    ensures ListCallees(fns, ss, depth).Some? <==> depth + ListNesting(ss) <= MAX_DEPTH
    ensures ListCallees(fns, ss, depth).Some? ==>
              forall g | 0 <= g < |fns| :: g in ListCallees(fns, ss, depth).value <==> ListCalls(ss, fns[g].id)
    decreases ss
  {
    if ss != [] {
      StmtCalleesIff(fp, fns, ret, env, ss[0], depth);
      ListCalleesIff(fp, fns, ret, env + Declared(ss[0]), ss[1..], depth);
    }
  }

  lemma {:induction false} GraphIff(fp: FloatModel, fns: seq<Function>, k: nat)
    requires Signatures(fns) && WellTyped(fp, fns) && k <= |fns|
    ensures SourceGraph(fns, k).Some? <==> forall i | 0 <= i < k :: ListNesting(fns[i].body) <= MAX_DEPTH
    decreases k
  {
    if k > 0 {
      GraphIff(fp, fns, k - 1);
      RowIff(fp, fns, k - 1);
    }
  }

  lemma {:induction false} RowIff(fp: FloatModel, fns: seq<Function>, f: nat)
    requires Signatures(fns) && WellTyped(fp, fns) && f < |fns|
    ensures ListCallees(fns, fns[f].body, 0).Some? <==> ListNesting(fns[f].body) <= MAX_DEPTH
    ensures ListCallees(fns, fns[f].body, 0).Some? ==>
              forall g | 0 <= g < |fns| :: g in ListCallees(fns, fns[f].body, 0).value <==> ListCalls(fns[f].body, fns[g].id)
  {
    assert FunctionTyped(fp, FunctionSet(fns), fns[f]);
    ListCalleesIff(fp, fns, fns[f].returnType, fns[f].params, fns[f].body, 0);
  }

  /** An edge of the graph is a call in the source. */
  lemma {:induction false} EdgeIff(fp: FloatModel, fns: seq<Function>, graph: Graph, f: nat, g: nat)
    requires Signatures(fns) && WellTyped(fp, fns) && SourceGraph(fns, |fns|) == Some(graph) && f < |fns| && g < |fns|
    ensures g in graph[f] <==> ListCalls(fns[f].body, fns[g].id)
  {
    RowIff(fp, fns, f);
  }

  lemma {:induction false} ExprCalleesBelow(fns: seq<Function>, e: Expr, depth: nat)
    requires ExprCallees(fns, e, depth).Some?
    ensures forall g | g in ExprCallees(fns, e, depth).value :: g < |fns|
    decreases e, 1
  {
    match e
    case Binary(_, _, left, right) =>
      ExprCalleesBelow(fns, left, depth + 1);
      ExprCalleesBelow(fns, right, depth + 1);
    case Call(_, _, args) => ArgsCalleesBelow(fns, args, depth + 1);
    case _ =>
  }

  lemma {:induction false} ArgsCalleesBelow(fns: seq<Function>, args: seq<Expr>, depth: nat)
    requires ArgsCallees(fns, args, depth).Some?
    ensures forall g | g in ArgsCallees(fns, args, depth).value :: g < |fns|
    decreases args, 0
  {
    if args != [] {
      ExprCalleesBelow(fns, args[0], depth);
      ArgsCalleesBelow(fns, args[1..], depth);
    }
  }

  lemma {:induction false} StmtCalleesBelow(fns: seq<Function>, s: Stmt, depth: nat)
    requires StmtCallees(fns, s, depth).Some?
    ensures forall g | g in StmtCallees(fns, s, depth).value :: g < |fns|
    decreases s, 0
  {
    match s
    case Declare(_, _, init) => ExprCalleesBelow(fns, init, depth + 1);
    case Assign(_, _, value) => ExprCalleesBelow(fns, value, depth + 1);
    case Return(_, result) => ExprCalleesBelow(fns, result, depth + 1);
    case If(cond, thenBody, elseBody) =>
      ExprCalleesBelow(fns, cond, depth + 1);
      ListCalleesBelow(fns, thenBody, depth + 1);
      ListCalleesBelow(fns, elseBody, depth + 1);
  }

  lemma {:induction false} ListCalleesBelow(fns: seq<Function>, ss: seq<Stmt>, depth: nat)
    requires ListCallees(fns, ss, depth).Some?
    ensures forall g | g in ListCallees(fns, ss, depth).value :: g < |fns|
    decreases ss
  {
    if ss != [] {
      StmtCalleesBelow(fns, ss[0], depth);
      ListCalleesBelow(fns, ss[1..], depth);
    }
  }

  ghost function Position(fns: seq<Function>, f: Function): (i: nat)
    requires f in fns
    ensures i < |fns| && fns[i] == f
  {
    var i :| 0 <= i < |fns| && fns[i] == f;
    i
  }

  /** The graph has a cycle exactly if functions call themselves through each other. */
  lemma {:induction false} CycleIff(fp: FloatModel, fns: seq<Function>, graph: Graph)
    requires Signatures(fns) && WellTyped(fp, fns) && SourceGraph(fns, |fns|) == Some(graph)
    ensures HasCycle(graph) <==> Recursive(fns)
  {
    if HasCycle(graph) {
      var path :| IsCycle(graph, path);
      var functions := seq(|path|, i requires 0 <= i < |path| && path[i] < |fns| => fns[path[i]]);
      forall i, j | 0 <= i < j < |path| && j == i + 1
        ensures ListCalls(functions[i].body, functions[j].id)
      {
        assert path[j] in graph[path[i]];
        EdgeIff(fp, fns, graph, path[i], path[j]);
      }
      assert CallsItself(fns, functions);
    }
    if Recursive(fns) {
      var functions: seq<Function> :| CallsItself(fns, functions);
      var path := seq(|functions|, i requires 0 <= i < |functions| && functions[i] in fns => Position(fns, functions[i]));
      forall i, j | 0 <= i < j < |path| && j == i + 1
        ensures path[j] in graph[path[i]]
      {
        assert ListCalls(functions[i].body, functions[j].id);
        EdgeIff(fp, fns, graph, path[i], path[j]);
      }
      assert IsCycle(graph, path);
    }
  }

  lemma {:induction false} RankedIff(fp: FloatModel, fns: seq<Function>, graph: Graph)
    requires Signatures(fns) && WellTyped(fp, fns) && SourceGraph(fns, |fns|) == Some(graph)
    ensures Ranked(graph) <==> !Recursive(fns)
  {
    forall f, h | 0 <= f < |graph| && h in graph[f]
      ensures h < |graph|
    {
      ListCalleesBelow(fns, fns[f].body, 0);
    }
    RankedIffAcyclic(graph);
    CycleIff(fp, fns, graph);
  }

  // ----- the theorem -----

  /** A program compiles exactly if it is well formed, well typed, not recursive, and within the limits. */
  lemma {:induction false} CompilesIff(fp: FloatModel, hir: ScalarHir)
    ensures Compile(fp, hir).Some? <==> Fits(fp, hir)
  {
    if Compile(fp, hir).Some? { CompiledFits(fp, hir); }
    if Fits(fp, hir) { FittingCompiles(fp, hir); }
  }

  lemma {:induction false} SameFunctions(fp: FloatModel, hir: ScalarHir)
    requires Admitted(hir)
    ensures var fns := Ordered(hir);
            && (WellTyped(fp, fns) <==> WellTyped(fp, hir.functions))
            && (NotTooDeep(fns) <==> NotTooDeep(hir.functions)) && (Recursive(fns) <==> Recursive(hir.functions))
  {
    var fns := Ordered(hir);
    OrderedSame(hir);
    forall f
      ensures f in fns <==> f in hir.functions
    {
    }
    TypedMembers(fp, FunctionSet(fns), fns, hir.functions);
    TypedMembers(fp, FunctionSet(fns), hir.functions, fns);
    RecursiveMembers(fns, hir.functions);
    RecursiveMembers(hir.functions, fns);
  }

  lemma {:induction false} TypedMembers(fp: FloatModel, sigs: set<Function>, a: seq<Function>, b: seq<Function>)
    requires forall f | f in b :: f in a
    ensures AllTyped(fp, sigs, a) ==> AllTyped(fp, sigs, b)
    ensures NotTooDeep(a) ==> NotTooDeep(b)
  {
    forall i | 0 <= i < |b|
      ensures exists k :: 0 <= k < |a| && a[k] == b[i]
    {
      assert b[i] in b && b[i] in a;
    }
  }

  lemma {:induction false} RecursiveMembers(a: seq<Function>, b: seq<Function>)
    requires forall f | f in a :: f in b
    ensures Recursive(a) ==> Recursive(b)
  {
    if path :| CallsItself(a, path) { assert CallsItself(b, path); }
  }

  lemma {:induction false} CompiledFits(fp: FloatModel, hir: ScalarHir)
    requires Compile(fp, hir).Some?
    ensures Fits(fp, hir)
    ensures var p := Compile(fp, hir).value; p.registerCount == Registers(hir.functions) && |p.code| == Instructions(hir.functions)
  {
    var fns := Ordered(hir);
    OrderedSame(hir);
    FirstLower(fp, fns, |fns|);
    assert fns[..|fns|] == fns;
    assert WellTyped(fp, fns);
    SameFunctions(fp, hir);
    AdmittedIff(fp, hir);
    GraphIff(fp, fns, |fns|);
    RankedIff(fp, fns, SourceGraph(fns, |fns|).value);
    assert NotTooDeep(fns);
  }

  lemma {:induction false} FittingCompiles(fp: FloatModel, hir: ScalarHir)
    requires Fits(fp, hir)
    ensures Compile(fp, hir).Some?
  {
    AdmittedIff(fp, hir);
    var fns := Ordered(hir);
    OrderedSame(hir);
    assert NotTooDeep(hir.functions);
    SameFunctions(fp, hir);
    FirstLower(fp, fns, |fns|);
    assert fns[..|fns|] == fns;
    GraphIff(fp, fns, |fns|);
    RankedIff(fp, fns, SourceGraph(fns, |fns|).value);
  }
}
