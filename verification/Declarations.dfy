/** What the condition "declared before use" says: it fails exactly if some path through a function reads or
    assigns a variable that has not been declared on the way.  A path takes either side of every branch. */
module Declarations {
  import opened Wrappers
  import opened Hir

  datatype Event = Reads(e: Expr) | Assigns(id: nat) | Declares(id: nat)

  // ----- paths -----

  /** The events on one way through a statement; `ends` if the way ends in a return. */
  ghost predicate StmtPath(s: Stmt, path: seq<Event>, ends: bool)
    decreases s
  {
    match s
    case Declare(_, id, init) => path == [Reads(init), Declares(id)] && !ends
    case Assign(_, id, value) => path == [Reads(value), Assigns(id)] && !ends
    case Return(_, result) => path == [Reads(result)] && ends
    case If(cond, thenBody, elseBody) =>
      && path != [] && path[0] == Reads(cond)
      && (ListPath(thenBody, path[1..], ends) || ListPath(elseBody, path[1..], ends))
  }

  ghost predicate ListPath(ss: seq<Stmt>, path: seq<Event>, ends: bool)
    decreases ss
  {
    if ss == [] then path == [] && !ends
    else (ends && StmtPath(ss[0], path, true)) || exists k: nat :: CutPath(ss, path, ends, k)
  }

  /** The first statement takes k events, the others the rest. */
  ghost predicate CutPath(ss: seq<Stmt>, path: seq<Event>, ends: bool, k: nat)
    requires ss != []
    decreases ss, 0
  {
    k <= |path| && StmtPath(ss[0], path[..k], false) && ListPath(ss[1..], path[k..], ends)
  }

  /** The variables a path declares. */
  function Binds(path: seq<Event>): set<nat> {
    if path == [] then {} else Bound(path[0]) + Binds(path[1..])
  }

  function Bound(event: Event): set<nat> { if event.Declares? then {event.id} else {} }

  predicate EventOk(declared: set<nat>, event: Event) {
    match event
    case Reads(e) => ExprDeclared(declared, e)
    case Assigns(id) => id in declared
    case Declares(_) => true
  }

  /** Everything on the path has been declared before. */
  predicate Smooth(declared: set<nat>, path: seq<Event>)
    decreases |path|
  {
    path == [] || (EventOk(declared, path[0]) && Smooth(declared + Bound(path[0]), path[1..]))
  }

  // ----- facts about paths -----

  lemma {:induction false} BindsAppend(a: seq<Event>, b: seq<Event>)
    ensures Binds(a + b) == Binds(a) + Binds(b)
    decreases |a|
  {
    if a == [] {
      assert a + b == b;
    } else {
      assert (a + b)[1..] == a[1..] + b;
      BindsAppend(a[1..], b);
    }
  }

  lemma {:induction false} SmoothAppend(declared: set<nat>, a: seq<Event>, b: seq<Event>)
    ensures Smooth(declared, a + b) <==> Smooth(declared, a) && Smooth(declared + Binds(a), b)
    decreases |a|
  {
    if a == [] {
      assert a + b == b && declared + Binds(a) == declared;
    } else {
      assert (a + b)[1..] == a[1..] + b;
      SmoothAppend(declared + Bound(a[0]), a[1..], b);
      assert declared + Bound(a[0]) + Binds(a[1..]) == declared + Binds(a);
    }
  }

  lemma {:induction false} ExprMissing(declared: set<nat>, e: Expr) returns (x: nat)
    requires !ExprDeclared(declared, e)
    ensures x !in declared && forall other: set<nat> | x !in other :: !ExprDeclared(other, e)
    decreases e
  {
    match e
    case Variable(_, id) => x := id;
    case Binary(_, _, left, right) =>
      if !ExprDeclared(declared, left) { x := ExprMissing(declared, left); } else { x := ExprMissing(declared, right); }
    case Call(_, _, args) =>
      var i :| 0 <= i < |args| && !ExprDeclared(declared, args[i]);
      x := ExprMissing(declared, args[i]);
  }

  /** What a path is missing is a single variable. */
  lemma {:induction false} PathMissing(declared: set<nat>, path: seq<Event>) returns (x: nat)
    requires !Smooth(declared, path)
    ensures x !in declared && forall other: set<nat> | x !in other :: !Smooth(other, path)
    decreases |path|
  {
    if EventOk(declared, path[0]) {
      x := PathMissing(declared + Bound(path[0]), path[1..]);
      forall other: set<nat> | x !in other
        ensures !Smooth(other, path)
      {
        assert x !in other + Bound(path[0]);
      }
    } else if path[0].Reads? {
      x := ExprMissing(declared, path[0].e);
    } else {
      x := path[0].id;
    }
  }

  lemma {:induction false} SmoothWider(declared: set<nat>, wider: set<nat>, path: seq<Event>)
    requires declared <= wider && Smooth(declared, path)
    ensures Smooth(wider, path)
  {
    if !Smooth(wider, path) { var x := PathMissing(wider, path); }
  }

  /** There is always some way through. */
  lemma {:induction false} SomeStmtPath(s: Stmt) returns (path: seq<Event>, ends: bool)
    ensures StmtPath(s, path, ends)
    decreases s
  {
    match s
    case Declare(_, id, init) => path, ends := [Reads(init), Declares(id)], false;
    case Assign(_, id, value) => path, ends := [Reads(value), Assigns(id)], false;
    case Return(_, result) => path, ends := [Reads(result)], true;
    case If(cond, thenBody, _) =>
      path, ends := SomePath(thenBody);
      path := [Reads(cond)] + path;
  }

  lemma {:induction false} SomePath(ss: seq<Stmt>) returns (path: seq<Event>, ends: bool)
    ensures ListPath(ss, path, ends)
    decreases ss
  {
    if ss == [] {
      path, ends := [], false;
    } else {
      path, ends := SomeStmtPath(ss[0]);
      if !ends {
        var rest;
        var first := path;
        rest, ends := SomePath(ss[1..]);
        path := first + rest;
        Glue(ss, first, rest, ends);
      }
    }
  }

  lemma {:induction false} Glue(ss: seq<Stmt>, first: seq<Event>, rest: seq<Event>, ends: bool)
    requires ss != [] && StmtPath(ss[0], first, false) && ListPath(ss[1..], rest, ends)
    ensures ListPath(ss, first + rest, ends)
  {
    var path := first + rest;
    assert path[..|first|] == first && path[|first|..] == rest;
    assert CutPath(ss, path, ends, |first|);
  }

  /** Where a path through a list leaves the first statement. */
  lemma {:induction false} Split(ss: seq<Stmt>, path: seq<Event>, ends: bool) returns (first: seq<Event>, rest: seq<Event>)
    requires ss != [] && ListPath(ss, path, ends) && !(ends && StmtPath(ss[0], path, true))
    ensures path == first + rest && StmtPath(ss[0], first, false) && ListPath(ss[1..], rest, ends)
  {
    var k: nat :| CutPath(ss, path, ends, k);
    first, rest := path[..k], path[k..];
  }

  // ----- the check is exact -----

  /** Declared on every path that gets to the end. */
  ghost predicate OnEveryWay(declared: set<nat>, s: Stmt, x: nat) {
    forall path | StmtPath(s, path, false) :: x in declared + Binds(path)
  }

  ghost predicate OnEveryRoute(declared: set<nat>, ss: seq<Stmt>, x: nat) {
    forall path | ListPath(ss, path, false) :: x in declared + Binds(path)
  }

  /** A verdict is exact if it is refused just where some path is not smooth, if it says that the end is not reached
      just where no path gets there, and if what it says is declared is what every path there declares. */
  ghost predicate ExactStmt(declared: set<nat>, s: Stmt, r: Option<After>) {
    && (r.Some? <==> forall path, ends | StmtPath(s, path, ends) :: Smooth(declared, path))
    && (r.Some? && r.value.Ends? ==> forall path :: !StmtPath(s, path, false))
    && (r.Some? && r.value.Falls? ==>
          && (exists path :: StmtPath(s, path, false))
          && forall x: nat :: x in r.value.declared <==> OnEveryWay(declared, s, x))
  }

  ghost predicate ExactList(declared: set<nat>, ss: seq<Stmt>, r: Option<After>) {
    && (r.Some? <==> forall path, ends | ListPath(ss, path, ends) :: Smooth(declared, path))
    && (r.Some? && r.value.Ends? ==> forall path :: !ListPath(ss, path, false))
    && (r.Some? && r.value.Falls? ==>
          && (exists path :: ListPath(ss, path, false))
          && forall x: nat :: x in r.value.declared <==> OnEveryRoute(declared, ss, x))
  }

  lemma {:induction false} OnlyPath(declared: set<nat>, s: Stmt, path: seq<Event>, r: Option<After>)
    requires !s.If? && forall p, ends | StmtPath(s, p, ends) :: p == path && ends == s.Return?
    requires StmtPath(s, path, s.Return?) && (r.Some? <==> Smooth(declared, path))
    requires r.Some? ==> r.value == if s.Return? then Ends else Falls(declared + Binds(path))
    ensures ExactStmt(declared, s, r)
  {
  }

  lemma {:induction false} StmtIsExact(declared: set<nat>, s: Stmt)
    ensures ExactStmt(declared, s, StmtDeclared(declared, s))
    decreases s
  {
    match s
    case Declare(_, id, init) =>
      var path := [Reads(init), Declares(id)];
      assert path[1..] == [Declares(id)] && path[1..][1..] == [];
      assert Binds([Declares(id)]) == {id} + Binds([]);
      assert Binds(path) == {} + Binds([Declares(id)]);
      assert Smooth(declared, [Declares(id)]) && declared + Bound(path[0]) == declared;
      assert declared + {} == declared;
      OnlyPath(declared, s, path, StmtDeclared(declared, s));
    case Assign(_, id, value) =>
      var path := [Reads(value), Assigns(id)];
      assert path[1..] == [Assigns(id)] && path[1..][1..] == [];
      assert declared + {} == declared;
      assert Binds([Assigns(id)]) == {} + Binds([]);
      assert Binds(path) == {} + Binds([Assigns(id)]);
      assert (Smooth(declared, [Assigns(id)]) <==> id in declared) && declared + Bound(path[0]) == declared;
      OnlyPath(declared, s, path, StmtDeclared(declared, s));
    case Return(_, result) =>
      var path := [Reads(result)];
      assert path[1..] == [];
      OnlyPath(declared, s, path, StmtDeclared(declared, s));
    case If(cond, thenBody, elseBody) =>
      ListIsExact(declared, thenBody);
      ListIsExact(declared, elseBody);
      IfIsExact(declared, s, ListDeclared(declared, thenBody), ListDeclared(declared, elseBody));
  }

  /** A path through a conditional: the condition, then a path through one side. */
  lemma {:induction false} IfPath(declared: set<nat>, s: Stmt, rest: seq<Event>, ends: bool)
    requires s.If? && (ListPath(s.thenBody, rest, ends) || ListPath(s.elseBody, rest, ends))
    ensures StmtPath(s, [Reads(s.cond)] + rest, ends)
    ensures Smooth(declared, [Reads(s.cond)] + rest) <==> ExprDeclared(declared, s.cond) && Smooth(declared, rest)
    ensures Binds([Reads(s.cond)] + rest) == Binds(rest)
  {
    var path := [Reads(s.cond)] + rest;
    assert path[1..] == rest;
    assert declared + {} == declared;
  }

  lemma {:induction false} IfIsExact(declared: set<nat>, s: Stmt, a: Option<After>, b: Option<After>)
    requires s.If? && ExactList(declared, s.thenBody, a) && ExactList(declared, s.elseBody, b)
    ensures ExactStmt(declared, s, if !ExprDeclared(declared, s.cond) || a.None? || b.None? then None else Some(Join(a.value, b.value)))
  {
    forall path, ends | StmtPath(s, path, ends)
      ensures path == [Reads(s.cond)] + path[1..]
      ensures ListPath(s.thenBody, path[1..], ends) || ListPath(s.elseBody, path[1..], ends)
      ensures Smooth(declared, path) <==> ExprDeclared(declared, s.cond) && Smooth(declared, path[1..])
      ensures Binds(path) == Binds(path[1..])
    {
      assert path == [Reads(s.cond)] + path[1..];
      IfPath(declared, s, path[1..], ends);
    }
    if !ExprDeclared(declared, s.cond) {
      var rest, ends := SomePath(s.thenBody);
      IfPath(declared, s, rest, ends);
    } else if a.None? {
      var rest, ends :| ListPath(s.thenBody, rest, ends) && !Smooth(declared, rest);
      IfPath(declared, s, rest, ends);
    } else if b.None? {
      var rest, ends :| ListPath(s.elseBody, rest, ends) && !Smooth(declared, rest);
      IfPath(declared, s, rest, ends);
    } else {
      BranchesJoin(declared, s, a.value, b.value);
    }
  }

  lemma {:induction false} BranchesJoin(declared: set<nat>, s: Stmt, a: After, b: After)
    requires s.If? && ExactList(declared, s.thenBody, Some(a)) && ExactList(declared, s.elseBody, Some(b))
    ensures Join(a, b).Ends? ==> forall path :: !StmtPath(s, path, false)
    ensures Join(a, b).Falls? ==> exists path :: StmtPath(s, path, false)
    ensures Join(a, b).Falls? ==>
              forall x: nat :: x in Join(a, b).declared <==> OnEveryWay(declared, s, x)
  {
    forall path | StmtPath(s, path, false)
      ensures !Join(a, b).Ends?
    {
      assert ListPath(s.thenBody, path[1..], false) || ListPath(s.elseBody, path[1..], false);
    }
    if Join(a, b).Falls? {
      if a.Falls? {
        var rest :| ListPath(s.thenBody, rest, false);
        IfPath(declared, s, rest, false);
      } else {
        var rest :| ListPath(s.elseBody, rest, false);
        IfPath(declared, s, rest, false);
      }
      forall x: nat
        ensures x in Join(a, b).declared <==> OnEveryWay(declared, s, x)
      {
        BranchesJoinAt(declared, s, a, b, x);
      }
    }
  }

  lemma {:induction false} BranchesJoinAt(declared: set<nat>, s: Stmt, a: After, b: After, x: nat)
    requires s.If? && ExactList(declared, s.thenBody, Some(a)) && ExactList(declared, s.elseBody, Some(b))
    requires Join(a, b).Falls?
    ensures x in Join(a, b).declared <==> OnEveryWay(declared, s, x)
  {
    if x in Join(a, b).declared {
      forall path | StmtPath(s, path, false)
        ensures x in declared + Binds(path)
      {
        assert path == [Reads(s.cond)] + path[1..];
        IfPath(declared, s, path[1..], false);
      }
    } else if a.Falls? && x !in a.declared {
      var rest :| ListPath(s.thenBody, rest, false) && x !in declared + Binds(rest);
      IfPath(declared, s, rest, false);
    } else {
      var rest :| ListPath(s.elseBody, rest, false) && x !in declared + Binds(rest);
      IfPath(declared, s, rest, false);
    }
  }

  lemma {:induction false} ListIsExact(declared: set<nat>, ss: seq<Stmt>)
    ensures ExactList(declared, ss, ListDeclared(declared, ss))
    decreases ss
  {
    if ss == [] {
      assert ListPath(ss, [], false) && declared + Binds([]) == declared;
    } else {
      StmtIsExact(declared, ss[0]);
      var a := StmtDeclared(declared, ss[0]);
      if a.None? {
        HeadFails(declared, ss);
      } else if a.value.Ends? {
        HeadEnds(declared, ss);
      } else {
        ListIsExact(a.value.declared, ss[1..]);
        TailIsExact(declared, ss, a.value.declared, ListDeclared(a.value.declared, ss[1..]));
      }
    }
  }

  lemma {:induction false} HeadFails(declared: set<nat>, ss: seq<Stmt>)
    requires ss != [] && ExactStmt(declared, ss[0], None)
    ensures exists path, ends :: ListPath(ss, path, ends) && !Smooth(declared, path)
  {
    var path, ends :| StmtPath(ss[0], path, ends) && !Smooth(declared, path);
    if ends {
      assert ListPath(ss, path, true);
    } else {
      var rest, last := SomePath(ss[1..]);
      Glue(ss, path, rest, last);
      SmoothAppend(declared, path, rest);
    }
  }

  lemma {:induction false} HeadEnds(declared: set<nat>, ss: seq<Stmt>)
    requires ss != [] && ExactStmt(declared, ss[0], Some(Ends))
    ensures ExactList(declared, ss, Some(Ends))
  {
    forall path, ends | ListPath(ss, path, ends)
      ensures ends && Smooth(declared, path)
    {
      if !(ends && StmtPath(ss[0], path, true)) { var first, rest := Split(ss, path, ends); }
    }
  }

  /** After a first statement that lets some path through. */
  lemma {:induction false} TailIsExact(declared: set<nat>, ss: seq<Stmt>, middle: set<nat>, r: Option<After>)
    requires ss != [] && ExactStmt(declared, ss[0], Some(Falls(middle))) && ExactList(middle, ss[1..], r)
    ensures ExactList(declared, ss, r)
  {
    if r.None? {
      TailFails(declared, ss, middle);
    } else {
      forall path, ends | ListPath(ss, path, ends)
        ensures Smooth(declared, path)
      {
        TailSmooth(declared, ss, middle, r.value, path, ends);
      }
      if r.value.Ends? {
        forall path
          ensures !ListPath(ss, path, false)
        {
          if ListPath(ss, path, false) { var first, rest := Split(ss, path, false); }
        }
      } else {
        var first :| StmtPath(ss[0], first, false);
        var rest :| ListPath(ss[1..], rest, false);
        Glue(ss, first, rest, false);
        forall x: nat
          ensures x in r.value.declared <==> OnEveryRoute(declared, ss, x)
        {
          TailDeclares(declared, ss, middle, r.value.declared, x);
        }
      }
    }
  }

  lemma {:induction false} TailFails(declared: set<nat>, ss: seq<Stmt>, middle: set<nat>)
    requires ss != [] && ExactStmt(declared, ss[0], Some(Falls(middle))) && ExactList(middle, ss[1..], None)
    ensures exists path, ends :: ListPath(ss, path, ends) && !Smooth(declared, path)
  {
    var rest, ends :| ListPath(ss[1..], rest, ends) && !Smooth(middle, rest);
    var x := PathMissing(middle, rest);
    var first :| StmtPath(ss[0], first, false) && x !in declared + Binds(first);
    SmoothAppend(declared, first, rest);
    Glue(ss, first, rest, ends);
  }

  lemma {:induction false} TailSmooth(declared: set<nat>, ss: seq<Stmt>, middle: set<nat>, r: After, path: seq<Event>, ends: bool)
    requires ss != [] && ExactStmt(declared, ss[0], Some(Falls(middle))) && ExactList(middle, ss[1..], Some(r))
    requires ListPath(ss, path, ends)
    ensures Smooth(declared, path)
  {
    if !(ends && StmtPath(ss[0], path, true)) {
      var first, rest := Split(ss, path, ends);
      SmoothAppend(declared, first, rest);
      assert middle <= declared + Binds(first);
      SmoothWider(middle, declared + Binds(first), rest);
    }
  }

  lemma {:induction false} TailDeclares(declared: set<nat>, ss: seq<Stmt>, middle: set<nat>, last: set<nat>, x: nat)
    requires ss != [] && ExactStmt(declared, ss[0], Some(Falls(middle))) && ExactList(middle, ss[1..], Some(Falls(last)))
    ensures x in last <==> OnEveryRoute(declared, ss, x)
  {
    if x in last {
      forall path | ListPath(ss, path, false)
        ensures x in declared + Binds(path)
      {
        var first, rest := Split(ss, path, false);
        BindsAppend(first, rest);
        assert x in middle + Binds(rest);
      }
    } else {
      var rest :| ListPath(ss[1..], rest, false) && x !in middle + Binds(rest);
      var first :| StmtPath(ss[0], first, false) && x !in declared + Binds(first);
      BindsAppend(first, rest);
      Glue(ss, first, rest, false);
    }
  }

  predicate FunctionDeclared(f: Function) { ListDeclared(ParamIds(f.params), f.body).Some? }

  ghost predicate FunctionSmooth(f: Function) {
    forall path, ends | ListPath(f.body, path, ends) :: Smooth(ParamIds(f.params), path)
  }

  /** The condition on a program is exact: it fails if and only if some path through the body of a function reads or
      assigns a variable that is neither a parameter nor declared on the way. */
  lemma {:induction false} DeclarationCheckIsExact(hir: ScalarHir)
    ensures DefinitelyDeclared(hir) <==> forall i | 0 <= i < |hir.functions| :: FunctionSmooth(hir.functions[i])
  {
    forall i | 0 <= i < |hir.functions|
      ensures FunctionDeclared(hir.functions[i]) <==> FunctionSmooth(hir.functions[i])
    {
      var f := hir.functions[i];
      ListIsExact(ParamIds(f.params), f.body);
    }
  }
}
