/** The whole compilation of a scalar program: function order, call graph, lowering. */
module Compiler {
  import opened Wrappers
  import opened Floats
  import opened Hir
  import opened Bytecode
  import opened Lowering
  import opened CallGraph

  // ----- which programs are admitted, and in what order their functions are compiled -----

  predicate Named(f: Function) { f.name == "principal" }

  predicate SignatureOk(f: Function) {
    f.id != 0 && f.resolved && forall i | 0 <= i < |f.params| :: f.params[i].id != 0
  }

  /** One `principal`, without parameters and numeric; signatures resolved; symbols distinct. */
  predicate Admitted(hir: ScalarHir) {
    && hir.globals == []
    && 0 < |hir.functions| <= MAX_FUNCTIONS
    && (forall i | 0 <= i < |hir.functions| :: SignatureOk(hir.functions[i]))
    && (forall i, j | 0 <= i < j < |hir.functions| ::
          && hir.functions[i].id != hir.functions[j].id
          && !(Named(hir.functions[i]) && Named(hir.functions[j])))
    && PrincipalFrom(hir.functions, 0).Some?
    && var f := hir.functions[PrincipalFrom(hir.functions, 0).value];
    && f.params == [] && f.returnType == Number
  }

  function PrincipalFrom(fns: seq<Function>, from: nat): (r: Option<nat>)
    ensures r.Some? ==> from <= r.value < |fns| && Named(fns[r.value])
    ensures r.None? ==> forall i | from <= i < |fns| :: !Named(fns[i])
    decreases |fns| - from
  {
    if from >= |fns| then None
    else if Named(fns[from]) then Some(from)
    else PrincipalFrom(fns, from + 1)
  }

  /** `principal` first, the others in their order. */
  function Ordered(hir: ScalarHir): seq<Function>
    requires Admitted(hir)
  {
    var k := PrincipalFrom(hir.functions, 0).value;
    [hir.functions[k]] + hir.functions[..k] + hir.functions[k + 1..]
  }

  // ----- the call graph of the source -----

  /** The last function with this symbol. */
  function LastIndex(fns: seq<Function>, id: nat, upto: nat): (r: Option<nat>)
    requires upto <= |fns|
    ensures r.Some? ==> r.value < upto && fns[r.value].id == id
    ensures r.None? ==> forall i | 0 <= i < upto :: fns[i].id != id
  {
    if upto == 0 then None
    else if fns[upto - 1].id == id then Some(upto - 1)
    else LastIndex(fns, id, upto - 1)
  }

  /** The callees in an expression; None when it is too deep or calls an unknown function. */
  function ExprCallees(fns: seq<Function>, e: Expr, depth: nat): Option<set<nat>>
    decreases e
  {
    if depth > MAX_DEPTH then None
    else
      match e
      case NumberLiteral(_) => Some({})
      case BooleanLiteral(_) => Some({})
      case Variable(_, _) => Some({})
      case Binary(_, _, left, right) =>
        var a :- ExprCallees(fns, left, depth + 1);
        var b :- ExprCallees(fns, right, depth + 1);
        Some(a + b)
      case Call(_, callee, args) =>
        var g :- LastIndex(fns, callee, |fns|);
        var a :- ArgsCallees(fns, args, depth + 1);
        Some({g} + a)
  }

  function ArgsCallees(fns: seq<Function>, args: seq<Expr>, depth: nat): Option<set<nat>>
    decreases args
  {
    if args == [] then Some({})
    else
      var a :- ExprCallees(fns, args[0], depth);
      var b :- ArgsCallees(fns, args[1..], depth);
      Some(a + b)
  }

  function StmtCallees(fns: seq<Function>, s: Stmt, depth: nat): Option<set<nat>>
    decreases s
  {
    match s
    case Declare(_, _, init) => ExprCallees(fns, init, depth + 1)
    case Assign(_, _, value) => ExprCallees(fns, value, depth + 1)
    case Return(_, result) => ExprCallees(fns, result, depth + 1)
    case If(cond, thenBody, elseBody) =>
      var a :- ExprCallees(fns, cond, depth + 1);
      var b :- ListCallees(fns, thenBody, depth + 1);
      var c :- ListCallees(fns, elseBody, depth + 1);
      Some(a + b + c)
  }

  function ListCallees(fns: seq<Function>, ss: seq<Stmt>, depth: nat): Option<set<nat>>
    decreases ss
  {
    if depth > MAX_DEPTH then None
    else if ss == [] then Some({})
    else
      var a :- StmtCallees(fns, ss[0], depth);
      var b :- ListCallees(fns, ss[1..], depth);
      Some(a + b)
  }

  /** One row per function, up to function k. */
  function SourceGraph(fns: seq<Function>, k: nat): (r: Option<Graph>)
    requires k <= |fns|
    ensures r.Some? ==> |r.value| == k
    ensures r.Some? ==> forall i | 0 <= i < k :: ListCallees(fns, fns[i].body, 0) == Some(r.value[i])
  {
    if k == 0 then Some([])
    else
      var g :- SourceGraph(fns, k - 1);
      var row :- ListCallees(fns, fns[k - 1].body, 0);
      Some(g + [row])
  }

  function ReturnTags(fns: seq<Function>): seq<nat> {
    seq(|fns|, i requires 0 <= i < |fns| => Tag(fns[i].returnType))
  }

  function ProgramOf(fns: seq<Function>, s: Draft): Bytecode.Program {
    Bytecode.Program(TYPED_MINOR, |s.types|, s.code, s.types, ReturnTags(fns))
  }

  /** The program handed to the encoder, or None for a source that is rejected. */
  ghost function Compile(fp: FloatModel, hir: ScalarHir): Option<Bytecode.Program> {
    if !Admitted(hir) then None
    else
      var fns := Ordered(hir);
      var g :- SourceGraph(fns, |fns|);
      if !Ranked(g) then None
      else
        var s :- LowerFirst(fp, fns, |fns|);
        Some(ProgramOf(fns, s))
  }
}
