/** Compiled programs: their layout, and the theorem that they compute what their source means. */
module CompilerCorrect {
  import opened Wrappers
  import opened Floats
  import opened Hir
  import opened Bytecode
  import opened Lowering
  import opened LoweringFacts
  import opened CallGraph
  import opened Compiler
  import opened Simulation

  // ----- layout -----

  /** The drafts between the functions, from the empty one to the last. */
  ghost predicate Layout(fp: FloatModel, fns: seq<Function>, pre: seq<Draft>) {
    && |pre| == |fns| + 1 && pre[0] == Draft([], [], [])
    && (forall f | 0 <= f < |fns| :: Laid(fp, fns, pre, f))
  }

  ghost predicate Laid(fp: FloatModel, fns: seq<Function>, pre: seq<Draft>, f: nat)
    requires f < |fns| && |pre| == |fns| + 1
  {
    LaidFrom(fp, fns, pre, f)
  }

  ghost predicate LaidFrom(fp: FloatModel, fns: seq<Function>, pre: seq<Draft>, f: nat) {
    && f < |fns| && f + 1 < |pre| && LowerFunction(fp, fns, pre[f], f) == Some(pre[f + 1])
    && Small(pre[f]) && FunctionCode(fp, fns, f, pre[f], pre[f + 1])
  }

  lemma {:induction false} LayoutFirst(fp: FloatModel, fns: seq<Function>, k: nat) returns (pre: seq<Draft>)
    requires fp.WellBehaved() && k <= |fns| && LowerFirst(fp, fns, k).Some?
    ensures |pre| == k + 1 && pre[0] == Draft([], [], []) && pre[k] == LowerFirst(fp, fns, k).value && Small(pre[k])
    ensures forall f | 0 <= f < k :: LaidFrom(fp, fns, pre, f)
  {
    if k == 0 {
      pre := [Draft([], [], [])];
    } else {
      var before := LayoutFirst(fp, fns, k - 1);
      LowerFunctionOk(fp, fns, before[k - 1], k - 1);
      pre := before + [LowerFirst(fp, fns, k).value];
      forall f | 0 <= f < k
        ensures LaidFrom(fp, fns, pre, f)
      {
        if f < k - 1 { assert LaidFrom(fp, fns, before, f); }
      }
    }
  }

  lemma {:induction false} LayoutOf(fp: FloatModel, fns: seq<Function>) returns (pre: seq<Draft>)
    requires fp.WellBehaved() && LowerFirst(fp, fns, |fns|).Some?
    ensures Layout(fp, fns, pre) && pre[|fns|] == LowerFirst(fp, fns, |fns|).value && Small(pre[|fns|])
  {
    pre := LayoutFirst(fp, fns, |fns|);
    forall f | 0 <= f < |fns|
      ensures Laid(fp, fns, pre, f)
    {
      assert LaidFrom(fp, fns, pre, f);
    }
  }

  lemma {:induction false} LayoutExtends(fp: FloatModel, fns: seq<Function>, pre: seq<Draft>, i: nat, j: nat)
    requires Layout(fp, fns, pre) && i <= j <= |fns|
    ensures Extends(pre[i], pre[j]) && |pre[i].code| + 2 * (j - i) <= |pre[j].code|
    decreases j - i
  {
    if i < j {
      LayoutExtends(fp, fns, pre, i, j - 1);
      assert Laid(fp, fns, pre, j - 1);
    }
  }

  /** The function a position of the code belongs to. */
  lemma {:induction false} CodeOwner(fp: FloatModel, fns: seq<Function>, pre: seq<Draft>, k: nat, pc: nat)
      returns (f: nat)
    requires Layout(fp, fns, pre) && k <= |fns| && pc < |pre[k].code|
    ensures f < k && |pre[f].code| <= pc < |pre[f + 1].code|
    decreases k
  {
    if pc >= |pre[k - 1].code| { f := k - 1; } else { f := CodeOwner(fp, fns, pre, k - 1, pc); }
  }

  /** The markers of a compiled program are where its functions begin. */
  lemma {:induction false} MarkersOfLayout(fp: FloatModel, fns: seq<Function>, pre: seq<Draft>)
    requires Layout(fp, fns, pre)
    ensures Markers(pre[|fns|].code, 0) == seq(|fns|, f requires 0 <= f < |fns| => |pre[f].code|)
  {
    var n := |fns|;
    var code := pre[n].code;
    var ms := seq(n, f requires 0 <= f < n => |pre[f].code|);
    forall i, j | 0 <= i < j < n
      ensures ms[i] < ms[j]
    {
      LayoutExtends(fp, fns, pre, i, j);
    }
    forall x
      ensures x in ms <==> 0 <= x < |code| && code[x].op.FunctionMark?
    {
      if x in ms {
        var f :| 0 <= f < n && ms[f] == x;
        MarkerAt(fp, fns, pre, f);
      }
      if 0 <= x < |code| && code[x].op.FunctionMark? {
        var f := CodeOwner(fp, fns, pre, n, x);
        if x != |pre[f].code| { BodyAt(fp, fns, pre, f, x); }
        assert ms[f] == x;
      }
    }
    MarkersCorrect(code, 0);
    AscendingUnique(ms, Markers(code, 0));
  }

  lemma {:induction false} MarkerAt(fp: FloatModel, fns: seq<Function>, pre: seq<Draft>, f: nat)
    requires Layout(fp, fns, pre) && f < |fns|
    ensures |pre[f].code| < |pre[|fns|].code|
    ensures pre[|fns|].code[|pre[f].code|] == Instruction(FunctionMark, f, |pre[f].types|, |fns[f].params|, ZERO)
  {
    LayoutExtends(fp, fns, pre, f + 1, |fns|);
    assert Laid(fp, fns, pre, f);
  }

  /** Instructions of a body keep their check in the whole program. */
  lemma {:induction false} BodyAt(fp: FloatModel, fns: seq<Function>, pre: seq<Draft>, f: nat, pc: nat)
    requires Layout(fp, fns, pre) && f < |fns| && |pre[f].code| < pc < |pre[f + 1].code|
    ensures pc < |pre[|fns|].code| && |pre[f + 1].code| <= |pre[|fns|].code|
    ensures BodyIns(fp, fns, fns[f].returnType, pre[|fns|].types, pre[|fns|].code[pc], pc, |pre[f + 1].code| - 1)
    ensures pre[|fns|].code[|pre[f + 1].code| - 1].op.Return?
  {
    LayoutExtends(fp, fns, pre, f + 1, |fns|);
    assert Laid(fp, fns, pre, f);
    var last := pre[|fns|];
    assert BodyIns(fp, fns, fns[f].returnType, pre[f + 1].types, pre[f + 1].code[pc], pc, |pre[f + 1].code| - 1);
    assert last.code[pc] == pre[f + 1].code[pc];
  }

  lemma {:induction false} TableOfLayout(fp: FloatModel, fns: seq<Function>, pre: seq<Draft>, p: Bytecode.Program)
    requires Layout(fp, fns, pre) && p == ProgramOf(fns, pre[|fns|])
    ensures |Table(p)| == |fns|
    ensures forall f | 0 <= f < |fns| :: Table(p)[f] == InfoOf(fns, pre, f)
  {
    MarkersOfLayout(fp, fns, pre);
    forall f | 0 <= f < |fns|
      ensures Table(p)[f] == InfoOf(fns, pre, f)
    {
      MarkerAt(fp, fns, pre, f);
    }
  }

  ghost function InfoOf(fns: seq<Function>, pre: seq<Draft>, f: nat): Info
    requires f < |fns| && |pre| == |fns| + 1
  {
    Info(|pre[f].code| + 1, |pre[f + 1].code|, |pre[f].types|, |fns[f].params|, Tag(fns[f].returnType))
  }

  // ----- the call graph ranks the functions -----

  ghost predicate RowBelow(rank: seq<nat>, k: nat, row: set<nat>) {
    forall h | h in row :: h < |rank| && rank[h] < k
  }

  ghost predicate DistinctIds(fns: seq<Function>) {
    forall i, j | 0 <= i < j < |fns| :: fns[i].id != fns[j].id
  }

  lemma {:induction false} ExprCalleesRank(fns: seq<Function>, rank: seq<nat>, k: nat, e: Expr, depth: nat)
    requires DistinctIds(fns) && ExprCallees(fns, e, depth).Some? && RowBelow(rank, k, ExprCallees(fns, e, depth).value)
    ensures ExprRanked(fns, rank, k, e)
    decreases e
  {
    match e
    case NumberLiteral(_) =>
    case BooleanLiteral(_) =>
    case Variable(_, _) =>
    case Binary(_, _, left, right) =>
      ExprCalleesRank(fns, rank, k, left, depth + 1);
      ExprCalleesRank(fns, rank, k, right, depth + 1);
    case Call(_, callee, args) =>
      IndexFromCorrect(fns, callee, 0);
      assert LastIndex(fns, callee, |fns|).value in ExprCallees(fns, e, depth).value;
      ArgsCalleesRank(fns, rank, k, args, depth + 1);
  }

  lemma {:induction false} ArgsCalleesRank(fns: seq<Function>, rank: seq<nat>, k: nat, args: seq<Expr>, depth: nat)
    requires DistinctIds(fns) && ArgsCallees(fns, args, depth).Some? && RowBelow(rank, k, ArgsCallees(fns, args, depth).value)
    ensures ArgsRanked(fns, rank, k, args)
    decreases args
  {
    if args != [] {
      ExprCalleesRank(fns, rank, k, args[0], depth);
      ArgsCalleesRank(fns, rank, k, args[1..], depth);
    }
  }

  lemma {:induction false} StmtCalleesRank(fns: seq<Function>, rank: seq<nat>, k: nat, s: Stmt, depth: nat)
    requires DistinctIds(fns) && StmtCallees(fns, s, depth).Some? && RowBelow(rank, k, StmtCallees(fns, s, depth).value)
    ensures StmtRanked(fns, rank, k, s)
    decreases s
  {
    match s
    case Declare(_, _, init) => ExprCalleesRank(fns, rank, k, init, depth + 1);
    case Assign(_, _, value) => ExprCalleesRank(fns, rank, k, value, depth + 1);
    case Return(_, result) => ExprCalleesRank(fns, rank, k, result, depth + 1);
    case If(cond, thenBody, elseBody) =>
      ExprCalleesRank(fns, rank, k, cond, depth + 1);
      ListCalleesRank(fns, rank, k, thenBody, depth + 1);
      ListCalleesRank(fns, rank, k, elseBody, depth + 1);
  }

  lemma {:induction false} ListCalleesRank(fns: seq<Function>, rank: seq<nat>, k: nat, ss: seq<Stmt>, depth: nat)
    requires DistinctIds(fns) && ListCallees(fns, ss, depth).Some? && RowBelow(rank, k, ListCallees(fns, ss, depth).value)
    ensures ListRanked(fns, rank, k, ss)
    decreases ss
  {
    if ss != [] {
      StmtCalleesRank(fns, rank, k, ss[0], depth);
      ListCalleesRank(fns, rank, k, ss[1..], depth);
    }
  }

  lemma {:induction false} RankedRow(g: Graph, rank: seq<nat>, f: nat)
    requires IsRank(g, rank) && f < |g|
    ensures RowBelow(rank, rank[f], g[f])
  {
    var row := g[f];
    forall h | h in row
      ensures h < |rank| && rank[h] < rank[f]
    {
      assert h in g[f];
    }
  }

  lemma {:induction false} RankedBody(fns: seq<Function>, g: Graph, rank: seq<nat>, f: nat)
    requires DistinctIds(fns) && SourceGraph(fns, |fns|) == Some(g) && IsRank(g, rank) && f < |fns|
    ensures ListRanked(fns, rank, rank[f], fns[f].body)
  {
    RankedRow(g, rank, f);
    assert ListCallees(fns, fns[f].body, 0) == Some(g[f]);
    ListCalleesRank(fns, rank, rank[f], fns[f].body, 0);
  }

  // ----- the order of functions -----

  /** Reordering keeps symbols distinct and every function findable; `principal` comes first. */
  lemma {:induction false} OrderedFacts(hir: ScalarHir)
    requires Admitted(hir)
    ensures var fns := Ordered(hir);
            && |fns| == |hir.functions| && DistinctIds(fns)
            && (forall f | 0 <= f < |fns| :: fns[f] in hir.functions)
            && Hir.Named(hir.functions, "principal") == Some(fns[0])
            && fns[0].params == [] && fns[0].returnType == Number
  {
    var fns, k := Ordered(hir), PrincipalFrom(hir.functions, 0).value;
    forall f | 0 <= f < |fns|
      ensures fns[f] in hir.functions && fns[f] == hir.functions[if f == 0 then k else if f <= k then f - 1 else f]
    {
    }
    NamedIs(hir.functions, "principal", k);
  }

  lemma {:induction false} NamedIs(fns: seq<Function>, name: string, k: nat)
    requires k < |fns| && fns[k].name == name
    requires forall i | 0 <= i < |fns| && i != k :: fns[i].name != name
    ensures Hir.Named(fns, name) == Some(fns[k])
    decreases k
  {
    if k > 0 { NamedIs(fns[1..], name, k - 1); }
  }

  lemma {:induction false} LookupIs(fns: seq<Function>, f: Function)
    requires DistinctIds(fns) && f in fns
    ensures Lookup(fns, f.id) == Some(f)
    decreases |fns|
  {
    if fns[0] != f {
      assert fns[0].id != f.id;
      LookupIs(fns[1..], f);
    }
  }

  // ----- the world of a compiled program -----

  /** The function a register belongs to. */
  ghost function RegisterOwner(pre: seq<Draft>, k: nat, r: nat): (f: nat)
    requires k < |pre| && pre[0].types == [] && r < |pre[k].types|
    ensures f < k && |pre[f].types| <= r < |pre[f + 1].types|
    decreases k
  {
    if r >= |pre[k - 1].types| then k - 1 else RegisterOwner(pre, k - 1, r)
  }

  lemma {:induction false} RegisterOwnerIs(fp: FloatModel, fns: seq<Function>, pre: seq<Draft>, f: nat, r: nat)
    requires Layout(fp, fns, pre) && f < |fns| && |pre[f].types| <= r < |pre[f + 1].types| && r < |pre[|fns|].types|
    ensures RegisterOwner(pre, |fns|, r) == f
  {
    var o := RegisterOwner(pre, |fns|, r);
    if o < f { LayoutExtends(fp, fns, pre, o + 1, f); }
    if f < o { LayoutExtends(fp, fns, pre, f + 1, o); }
  }

  ghost function RegisterRanks(fns: seq<Function>, pre: seq<Draft>, rank: seq<nat>): seq<nat>
    requires |pre| == |fns| + 1 == |rank| + 1 && pre[0].types == []
  {
    seq(|pre[|fns|].types|, r requires 0 <= r < |pre[|fns|].types| => rank[RegisterOwner(pre, |fns|, r)])
  }

  ghost predicate Compiled(fp: FloatModel, hir: ScalarHir, p: Bytecode.Program, pre: seq<Draft>, g: Graph, rank: seq<nat>) {
    && fp.WellBehaved() && Admitted(hir)
    && var fns := Ordered(hir);
    && Layout(fp, fns, pre) && p == ProgramOf(fns, pre[|fns|]) && Small(pre[|fns|])
    && SourceGraph(fns, |fns|) == Some(g) && IsRank(g, rank)
  }

  lemma {:induction false} CompiledOf(fp: FloatModel, hir: ScalarHir, p: Bytecode.Program)
      returns (pre: seq<Draft>, g: Graph, rank: seq<nat>)
    requires fp.WellBehaved() && Compile(fp, hir) == Some(p)
    ensures Compiled(fp, hir, p, pre, g, rank)
  {
    var fns := Ordered(hir);
    g := SourceGraph(fns, |fns|).value;
    rank :| IsRank(g, rank);
    pre := LayoutOf(fp, fns);
  }

  ghost function WorldOf(fp: FloatModel, hir: ScalarHir, p: Bytecode.Program, maxDepth: nat, pre: seq<Draft>, g: Graph, rank: seq<nat>): World
    requires Compiled(fp, hir, p, pre, g, rank)
  {
    World(fp, hir.functions, Ordered(hir), p, maxDepth, pre, rank, RegisterRanks(Ordered(hir), pre, rank))
  }

  lemma {:induction false} FunctionOfWorld(
      fp: FloatModel, hir: ScalarHir, p: Bytecode.Program, maxDepth: nat, pre: seq<Draft>, g: Graph, rank: seq<nat>, f: nat)
    requires Compiled(fp, hir, p, pre, g, rank) && f < |Ordered(hir)|
    ensures FunctionOk(WorldOf(fp, hir, p, maxDepth, pre, g, rank), f)
  {
    var w := WorldOf(fp, hir, p, maxDepth, pre, g, rank);
    var fns := Ordered(hir);
    OrderedFacts(hir);
    assert Laid(fp, fns, pre, f);
    LayoutExtends(fp, fns, pre, f + 1, |fns|);
    TableOfLayout(fp, fns, pre, p);
    forall r | |pre[f].types| <= r < |pre[f + 1].types|
      ensures w.regRank[r] == rank[f]
    {
      RegisterOwnerIs(fp, fns, pre, f, r);
    }
    RankedBody(fns, g, rank, f);
    LookupIs(hir.functions, fns[f]);
  }

  lemma {:induction false} WorldOfOk(
      fp: FloatModel, hir: ScalarHir, p: Bytecode.Program, maxDepth: nat, pre: seq<Draft>, g: Graph, rank: seq<nat>)
    requires Compiled(fp, hir, p, pre, g, rank) && |hir.functions| <= maxDepth + 1
    ensures WorldOk(WorldOf(fp, hir, p, maxDepth, pre, g, rank))
  {
    OrderedFacts(hir);
    forall f | 0 <= f < |Ordered(hir)|
      ensures FunctionOk(WorldOf(fp, hir, p, maxDepth, pre, g, rank), f)
    {
      FunctionOfWorld(fp, hir, p, maxDepth, pre, g, rank, f);
    }
  }

  // ----- semantic preservation -----

  /** How a machine stops when the source has this outcome. */
  ghost predicate Agrees(out: Hir.Outcome<Value>, h: Halt) {
    match out
    case Done(v) => v.Num? && h == Finished(v.number)
    case Fault => IsFault(h)
    case Stuck => false
  }

  /** A run that reaches a state and stops there. */
  lemma {:induction false} RunStops(fp: FloatModel, p: Bytecode.Program, maxDepth: nat, n: nat, last: State, h: Halt)
    requires |Table(p)| > 0 && StepsTo(fp, p, maxDepth, InitialState(p), n) == Some(last)
    requires last.pc < |p.code| && Step(fp, p, maxDepth, last) == Halted(h)
    ensures forall limit: nat :: Run(fp, p, maxDepth, limit) == if limit < n + 1 then StepLimit else Stopped(h, n + 1)
  {
    forall limit: nat
      ensures Run(fp, p, maxDepth, limit) == if limit < n + 1 then StepLimit else Stopped(h, n + 1)
    {
      RunAlong(fp, p, maxDepth, limit, InitialState(p), 0, n, last);
    }
  }

  /** Whatever the compiler emits computes what its source means.  There is a number n such that with a
      budget of n instructions or more the run ends after exactly n of them, with the value of the source
      or with a run-time error exactly where the source divides by zero or leaves the finite numbers, and
      with a smaller budget it ends in the step limit. */
  lemma {:induction false} SemanticPreservation(fp: FloatModel, hir: ScalarHir, p: Bytecode.Program, depth: nat, maxDepth: nat)
      returns (n: nat, h: Halt)
    requires fp.WellBehaved() && Compile(fp, hir) == Some(p)
    requires |hir.functions| <= maxDepth + 1
    requires !EvalProgram(fp, hir, depth).Stuck?
    ensures |Table(p)| > 0 && Agrees(EvalProgram(fp, hir, depth), h)
    ensures forall limit: nat :: Run(fp, p, maxDepth, limit) == if limit < n then StepLimit else Stopped(h, n)
  {
    var pre, g, rank := CompiledOf(fp, hir, p);
    var w := WorldOf(fp, hir, p, maxDepth, pre, g, rank);
    WorldOfOk(fp, hir, p, maxDepth, pre, g, rank);
    OrderedFacts(hir);
    assert FunctionOk(w, 0);
    var st := InitialState(p);
    assert BodyEntry(w, 0, [], st);
    var m, last := SimBody(w, 0, depth, [], st);
    ReachesSteps(w, st, m, last);
    h := Step(fp, p, maxDepth, last).halt;
    RunStops(fp, p, maxDepth, m, last, h);
    n := m + 1;
  }
}
