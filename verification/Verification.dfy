/** The verifier as the program runs it: tables filled in loops, a work list per function. */
module Verification {
  import opened Wrappers
  import opened Floats
  import opened Bytecode
  import opened CallGraph
  import opened Verifier
  import Signatures

  // ----- the work list -----

  lemma {:induction false} ReachableStart(p: Program, start: nat)
    requires start < |p.code|
    ensures Reachable(p, start, start)
  {
    assert IsWalk(p, start, [start]);
  }

  lemma {:induction false} ReachableNext(p: Program, start: nat, pc: nat, to: nat)
    requires Reachable(p, start, pc) && pc < |p.code| && to in Successors(p, pc) && to < |p.code|
    ensures Reachable(p, start, to)
  {
    var walk :| IsWalk(p, start, walk) && walk[|walk| - 1] == pc;
    var longer := walk + [to];
    forall i | 0 < i < |longer|
      ensures Follows(p, longer, i)
    {
      if i < |walk| { assert Follows(p, walk, i); }
    }
    assert IsWalk(p, start, longer);
  }

  /** A set that contains the start and all successors contains every walk. */
  lemma {:induction false} WalkStays(p: Program, start: nat, inside: seq<nat>, walk: seq<nat>, i: nat)
    requires start in inside && IsWalk(p, start, walk) && i < |walk|
    requires forall pc, to | pc in inside && pc < |p.code| && to in Successors(p, pc) :: to in inside
    ensures walk[i] in inside
    decreases i
  {
    if i > 0 {
      WalkStays(p, start, inside, walk, i - 1);
      assert Follows(p, walk, i);
    }
  }

  /** The work list of function f: `q` holds what has been met, its first `head` entries are explored. */
  ghost predicate Exploring(p: Program, fns: seq<Info>, f: nat, q: seq<nat>, head: nat, visited: seq<bool>, found: bool)
    requires f < |fns|
  {
    && head <= |q| && |visited| == |p.code|
    && Distinct(q) && Below(q, |p.code|) && q != [] && q[0] == fns[f].start
    && (forall v | 0 <= v < |visited| :: visited[v] <==> v in q)
    && (forall i | 0 <= i < |q| :: Reachable(p, fns[f].start, q[i]))
    && (forall i | 0 <= i < head :: Explored(p, fns, f, q, q[i]))
    && (found <==> exists i :: 0 <= i < head && p.code[q[i]].op.Return?)
  }

  ghost predicate Explored(p: Program, fns: seq<Info>, f: nat, q: seq<nat>, pc: nat)
    requires f < |fns|
  {
    FlowOk(p, fns, f, pc) && forall to | to in Successors(p, pc) :: to in q
  }

  /** Meeting one more position. */
  function Meet(q: seq<nat>, to: nat): seq<nat> { if to in q then q else q + [to] }

  function MeetAll(q: seq<nat>, tos: seq<nat>): seq<nat>
    decreases |tos|
  {
    if tos == [] then q else MeetAll(Meet(q, tos[0]), tos[1..])
  }

  lemma {:induction false} MeetAllGrows(q: seq<nat>, tos: seq<nat>)
    ensures q <= MeetAll(q, tos) && forall to | to in tos :: to in MeetAll(q, tos)
    ensures forall v | v in MeetAll(q, tos) :: v in q || v in tos
    ensures Distinct(q) ==> Distinct(MeetAll(q, tos))
    decreases |tos|
  {
    if tos != [] {
      var next := Meet(q, tos[0]);
      MeetAllGrows(next, tos[1..]);
      assert tos[0] in next by { if tos[0] !in q { assert next[|q|] == tos[0]; } }
      assert forall v | v in next :: v in q || v == tos[0];
      forall v | v in MeetAll(q, tos)
        ensures v in q || v in tos
      {
        if v !in next { assert v in tos[1..]; }
      }
      forall to | to in tos
        ensures to in MeetAll(q, tos)
      {
        if to in tos[1..] {
        } else {
          assert to == tos[0] && to in next;
          var k :| 0 <= k < |next| && next[k] == to;
          assert MeetAll(q, tos)[k] == to;
        }
      }
    }
  }

  lemma {:induction false} MeetReachable(p: Program, fns: seq<Info>, f: nat, q: seq<nat>, pc: nat)
    requires f < |fns| && FlowOk(p, fns, f, pc) && Reachable(p, fns[f].start, pc)
    requires forall i | 0 <= i < |q| :: q[i] < |p.code| && Reachable(p, fns[f].start, q[i])
    ensures var q' := MeetAll(q, Successors(p, pc));
            forall i | 0 <= i < |q'| :: q'[i] < |p.code| && Reachable(p, fns[f].start, q'[i])
  {
    var tos := Successors(p, pc);
    var q' := MeetAll(q, tos);
    MeetAllGrows(q, tos);
    forall i | 0 <= i < |q'|
      ensures q'[i] < |p.code| && Reachable(p, fns[f].start, q'[i])
    {
      assert q'[i] in q';
      if q'[i] in q {
        var k :| 0 <= k < |q| && q[k] == q'[i];
      } else {
        ReachableNext(p, fns[f].start, pc, q'[i]);
      }
    }
  }

  lemma {:induction false} MeetExplored(p: Program, fns: seq<Info>, f: nat, q: seq<nat>, q': seq<nat>, pc: nat)
    requires f < |fns| && Explored(p, fns, f, q, pc) && q <= q'
    ensures Explored(p, fns, f, q', pc)
  {
    forall to | to in Successors(p, pc)
      ensures to in q'
    {
      var k :| 0 <= k < |q| && q[k] == to;
      assert q'[k] == to;
    }
  }

  /** Exploring the head of the list. */
  lemma {:induction false} ExploreHead(p: Program, fns: seq<Info>, f: nat, q: seq<nat>, head: nat, visited: seq<bool>, visited': seq<bool>, found: bool)
    requires f < |fns| && head < |q| && Exploring(p, fns, f, q, head, visited, found) && FlowOk(p, fns, f, q[head])
    requires var q' := MeetAll(q, Successors(p, q[head]));
             |visited'| == |p.code| && forall v | 0 <= v < |visited'| :: visited'[v] <==> v in q'
    ensures var q' := MeetAll(q, Successors(p, q[head]));
            Exploring(p, fns, f, q', head + 1, visited', found || p.code[q[head]].op.Return?)
  {
    var tos := Successors(p, q[head]);
    var q' := MeetAll(q, tos);
    MeetAllGrows(q, tos);
    MeetReachable(p, fns, f, q, q[head]);
    forall i | 0 <= i < head + 1
      ensures Explored(p, fns, f, q', q'[i])
    {
      assert q'[i] == q[i];
      if i < head { MeetExplored(p, fns, f, q, q', q[i]); }
    }
    assert forall i | 0 <= i < head + 1 :: p.code[q'[i]] == p.code[q[i]];
  }

  /** When everything met is explored, what is left is to have met a return. */
  lemma {:induction false} ExploredAll(p: Program, fns: seq<Info>, f: nat, q: seq<nat>, visited: seq<bool>, found: bool)
    requires f < |fns| && Exploring(p, fns, f, q, |q|, visited, found)
    ensures FlowsOk(p, fns, f) <==> found
  {
    var start := fns[f].start;
    assert start in q;
    forall pc, to | pc in q && pc < |p.code| && to in Successors(p, pc)
      ensures to in q
    {
      var i :| 0 <= i < |q| && q[i] == pc;
      assert Explored(p, fns, f, q, q[i]);
    }
    forall pc | Reachable(p, start, pc)
      ensures FlowOk(p, fns, f, pc) && pc in q
    {
      var walk :| IsWalk(p, start, walk) && walk[|walk| - 1] == pc;
      WalkStays(p, start, q, walk, |walk| - 1);
      var i :| 0 <= i < |q| && q[i] == pc;
      assert Explored(p, fns, f, q, q[i]);
    }
    if found {
      var i :| 0 <= i < |q| && p.code[q[i]].op.Return?;
      assert Reachable(p, start, q[i]);
    }
    if FlowsOk(p, fns, f) {
      var pc :| 0 <= pc < |p.code| && Reachable(p, start, pc) && p.code[pc].op.Return?;
      assert pc in q;
      var i :| 0 <= i < |q| && q[i] == pc;
      assert p.code[q[i]].op.Return?;
    }
  }

  /** Owners as the verifier tabulates them. */
  ghost predicate Owners(p: Program, fns: seq<Info>, owners: seq<nat>) {
    && |fns| > 0 && |owners| == |p.code|
    && forall pc | 0 <= pc < |owners| :: owners[pc] == OwnerOf(fns, pc)
  }

  /** One successor: rejected outside the function, appended when new. */
  method MeetOne(p: Program, owners: array<nat>, f: nat, visited: array<bool>, queue: array<nat>, tail: nat, to: nat)
      returns (ok: bool, tail': nat)
    requires owners.Length == visited.Length == queue.Length == |p.code| && tail <= queue.Length
    requires owners != queue
    requires Distinct(queue[..tail]) && Below(queue[..tail], |p.code|)
    requires forall v | 0 <= v < visited.Length :: visited[v] <==> v in queue[..tail]
    modifies visited, queue
    ensures ok <==> to < |p.code| && owners[to] == f
    ensures tail' <= queue.Length
    ensures ok ==> queue[..tail'] == Meet(old(queue[..tail]), to)
    ensures ok ==> Distinct(queue[..tail']) && Below(queue[..tail'], |p.code|)
    ensures ok ==> forall v | 0 <= v < visited.Length :: visited[v] <==> v in queue[..tail']
  {
    tail' := tail;
    if to >= |p.code| || owners[to] != f { return false, tail'; }
    ok := true;
    if !visited[to] {
      ghost var was := queue[..tail];
      assert to !in was;
      assert Distinct(was + [to]) && Below(was + [to], |p.code|);
      DistinctBound(was + [to], |p.code|);
      visited[to] := true;
      queue[tail] := to;
      tail' := tail + 1;
      assert queue[..tail'] == was + [to];
    }
  }

  /** All successors of an instruction, one after the other. */
  method MeetSuccessors(p: Program, owners: array<nat>, f: nat, visited: array<bool>, queue: array<nat>, tail: nat, pc: nat)
      returns (ok: bool, tail': nat)
    requires owners.Length == visited.Length == queue.Length == |p.code| && tail <= queue.Length && pc < |p.code|
    requires owners != queue
    requires Distinct(queue[..tail]) && Below(queue[..tail], |p.code|)
    requires forall v | 0 <= v < visited.Length :: visited[v] <==> v in queue[..tail]
    modifies visited, queue
    ensures ok <==> forall to | to in Successors(p, pc) :: to < |p.code| && owners[to] == f
    ensures tail' <= queue.Length
    ensures ok ==> queue[..tail'] == MeetAll(old(queue[..tail]), Successors(p, pc))
    ensures ok ==> forall v | 0 <= v < visited.Length :: visited[v] <==> v in queue[..tail']
  {
    var tos := Successors(p, pc);
    tail' := tail;
    for i := 0 to |tos|
      invariant tail' <= queue.Length
      invariant Distinct(queue[..tail']) && Below(queue[..tail'], |p.code|)
      invariant forall v | 0 <= v < visited.Length :: visited[v] <==> v in queue[..tail']
      invariant MeetAll(queue[..tail'], tos[i..]) == MeetAll(old(queue[..tail]), tos)
      invariant forall k | 0 <= k < i :: tos[k] < |p.code| && owners[tos[k]] == f
    {
      ok, tail' := MeetOne(p, owners, f, visited, queue, tail', tos[i]);
      if !ok {
        assert tos[i] in tos;
        return;
      }
    }
    ok := true;
  }

  /** Control flow of one function: everything reachable stays inside, and a RETURN can be reached. */
  method CheckFlow(p: Program, functions: array<Info>, count: nat, owners: array<nat>, f: nat) returns (ok: bool)
    requires 0 < count <= functions.Length && f < count && owners.Length == |p.code|
    requires Owners(p, functions[..count], owners[..]) && functions[f].start < |p.code|
    ensures ok <==> FlowsOk(p, functions[..count], f)
  {
    ghost var fns := functions[..count];
    var visited := new bool[|p.code|](_ => false);
    var queue := new nat[|p.code|];
    var head, tail := 0, 1;
    var found := false;
    visited[functions[f].start] := true;
    queue[0] := functions[f].start;
    ghost var q := [fns[f].start];
    ReachableStart(p, fns[f].start);
    while head < tail
      invariant head <= tail <= queue.Length && q == queue[..tail]
      invariant Exploring(p, fns, f, q, head, visited[..], found)
      decreases |p.code| - head
    {
      ghost var before, was := visited[..], found;
      var pc := queue[head];
      assert q[head] == pc && Reachable(p, fns[f].start, pc);
      var op := p.code[pc].op;
      if owners[pc] != f || op.FunctionMark? || (!op.Return? && !op.Jump? && pc + 1 >= functions[f].end) {
        assert !FlowOk(p, fns, f, pc);
        return false;
      }
      if op.Return? { found := true; }
      var more;
      more, tail := MeetSuccessors(p, owners, f, visited, queue, tail, pc);
      if !more {
        assert !FlowOk(p, fns, f, pc);
        return false;
      }
      ExploreHead(p, fns, f, q, head, before, visited[..], was);
      q := queue[..tail];
      head := head + 1;
    }
    ExploredAll(p, fns, f, q, visited[..], found);
    ok := found;
  }

  // ----- the function table -----

  /** The entries for the markers met so far; the last one still ends at the end of the code. */
  ghost predicate Tabled(p: Program, functions: seq<Info>, met: seq<nat>) {
    && |met| <= |functions|
    && (forall i | 0 <= i < |met| :: met[i] < |p.code|)
    && forall i | 0 <= i < |met| :: functions[i] == InfoAt(p, met, i).(returnTag := 0)
  }

  lemma {:induction false} MarkerNext(p: Program, ms: seq<nat>, met: seq<nat>, pc: nat)
    requires pc < |p.code| && met + Markers(p.code, pc) == ms
    ensures p.code[pc].op.FunctionMark? ==> |met| < |ms| && ms[|met|] == pc && (met + [pc]) + Markers(p.code, pc + 1) == ms
    ensures !p.code[pc].op.FunctionMark? ==> met + Markers(p.code, pc + 1) == ms
  {
  }

  lemma {:induction false} TabledMore(p: Program, functions: seq<Info>, met: seq<nat>, pc: nat)
    requires Tabled(p, functions, met) && |met| < |functions| && pc < |p.code|
    ensures var closed := if met == [] then functions else functions[|met| - 1 := functions[|met| - 1].(end := pc)];
            Tabled(p, closed[|met| := Info(pc + 1, |p.code|, p.code[pc].b, p.code[pc].c, 0)], met + [pc])
  {
  }

  /** Ends the function before a marker and begins the next. */
  method AddFunction(p: Program, functions: array<Info>, count: nat, pc: nat, ghost met: seq<nat>)
    requires Tabled(p, functions[..], met) && |met| == count < functions.Length && pc < |p.code|
    modifies functions
    ensures Tabled(p, functions[..], met + [pc])
  {
    TabledMore(p, functions[..], met, pc);
    if count > 0 { functions[count - 1] := functions[count - 1].(end := pc); }
    functions[count] := Info(pc + 1, |p.code|, p.code[pc].b, p.code[pc].c, 0);
  }

  /** Collects the FUNCTION markers.  Return types are filled in from their own table later. */
  method ReadTable(p: Program, functions: array<Info>) returns (status: Status, count: nat)
    requires functions.Length == MAX_FUNCTIONS && 0 < |p.code| && p.minor >= CALL_MINOR
    modifies functions
    ensures status == TableStatus(p) && count <= MAX_FUNCTIONS
    ensures status == Ok ==>
              count == |Table(p)| && forall f | 0 <= f < count :: functions[f] == Table(p)[f].(returnTag := 0)
  {
    count := 0;
    if !p.code[0].op.FunctionMark? { return BadFormat, count; }
    ghost var ms := Markers(p.code, 0);
    ghost var met: seq<nat> := [];
    for pc := 0 to |p.code|
      invariant count <= MAX_FUNCTIONS && |met| == count && met + Markers(p.code, pc) == ms
      invariant Tabled(p, functions[..], met)
      invariant forall i | 0 <= i < count :: MarkerOk(p, ms, i)
    {
      var mark := p.code[pc];
      MarkerNext(p, ms, met, pc);
      if mark.op.FunctionMark? {
        if count >= MAX_FUNCTIONS || mark.a != count || mark.b > p.registerCount || mark.c > p.registerCount - mark.b {
          assert !MarkerOk(p, ms, count);
          assert !MarkersOk(p, ms);
          return BadOperand, count;
        }
        AddFunction(p, functions, count, pc, met);
        met := met + [pc];
        count := count + 1;
      }
    }
    assert met == ms;
    status := CheckBodies(p, functions, count);
  }

  /** No body is empty. */
  method CheckBodies(p: Program, functions: array<Info>, count: nat) returns (status: Status)
    requires 0 < |p.code| && p.minor >= CALL_MINOR && p.code[0].op.FunctionMark?
    requires count <= functions.Length && count == |Markers(p.code, 0)| && Tabled(p, functions[..], Markers(p.code, 0))
    requires forall i | 0 <= i < count :: MarkerOk(p, Markers(p.code, 0), i)
    ensures status == TableStatus(p)
    ensures count == |Table(p)| && forall f | 0 <= f < count :: functions[f] == Table(p)[f].(returnTag := 0)
  {
    ghost var fns := Table(p);
    assert MarkersOk(p, Markers(p.code, 0));
    for f := 0 to count
      invariant forall i | 0 <= i < f :: fns[i].start < fns[i].end
    {
      if functions[f].start >= functions[f].end {
        assert fns[f].start >= fns[f].end;
        return BadControlFlow;
      }
    }
    status := Ok;
  }

  /** The type tables: every tag known, the entry numeric; each function gets its return type. */
  method ReadTags(p: Program, functions: array<Info>, count: nat) returns (status: Status)
    requires count <= functions.Length && p.minor == TYPED_MINOR && count == |Table(p)|
    requires forall f | 0 <= f < count :: functions[f] == Table(p)[f].(returnTag := 0)
    modifies functions
    ensures status == if TagsOk(p) then Ok else BadFormat
    ensures status == Ok ==> functions[..count] == Table(p)
  {
    if |p.registerTypes| != p.registerCount || |p.returnTypes| != count || count == 0 || p.returnTypes[0] != NUMBER_TAG {
      return BadFormat;
    }
    for r := 0 to |p.registerTypes|
      invariant forall k | 0 <= k < r :: IsTag(p.registerTypes[k])
    {
      if !IsTag(p.registerTypes[r]) { return BadFormat; }
    }
    for f := 0 to count
      invariant forall k | 0 <= k < f :: IsTag(p.returnTypes[k])
      invariant forall k | 0 <= k < count :: functions[k] == Table(p)[k].(returnTag := if k < f then p.returnTypes[k] else 0)
    {
      if !IsTag(p.returnTypes[f]) { return BadFormat; }
      functions[f] := functions[f].(returnTag := p.returnTypes[f]);
    }
    forall k | 0 <= k < count
      ensures functions[k] == Table(p)[k]
    {
      assert Table(p)[k].returnTag == p.returnTypes[k];
    }
    status := Ok;
  }

  /** Fills in the owner of every position, function by function. */
  method FillOwners(p: Program, functions: array<Info>, count: nat, owners: array<nat>)
    requires 0 < count <= functions.Length && owners.Length == |p.code| && owners.Length > 0
    requires Tiled(p, functions[..count])
    modifies owners
    ensures Owners(p, functions[..count], owners[..])
  {
    ghost var fns := functions[..count];
    for f := 0 to count
      invariant forall pc | 0 <= pc < owners.Length && (if f < count then pc + 1 < functions[f].start else true) ::
                  owners[pc] == OwnerOf(fns, pc)
    {
      var pc := if functions[f].start == 0 then 0 else functions[f].start - 1;
      while pc < functions[f].end
        invariant functions[f].start <= pc + 1 && pc <= functions[f].end
        invariant forall k | 0 <= k < pc :: owners[k] == OwnerOf(fns, k)
      {
        OwnerIs(p, fns, f, pc);
        owners[pc] := f;
        pc := pc + 1;
      }
      assert f + 1 < count ==> Adjacent(fns, f);
    }
  }

  // ----- instructions -----

  method CheckOperands(fp: FloatModel, p: Program, functions: array<Info>, count: nat, owners: array<nat>, pc: nat)
      returns (valid: bool)
    requires 0 < count <= functions.Length && owners.Length == |p.code| && pc < |p.code|
    requires Owners(p, functions[..count], owners[..])
    ensures valid == OperandsOk(fp, p, functions[..count], pc)
  {
    var ins, n := p.code[pc], p.registerCount;
    match ins.op {
      case ConstF64 => valid := ins.a < n && ins.b == 0 && ins.c == 0 && fp.finite(ins.imm);
      case ConstBool =>
        valid := p.minor == TYPED_MINOR && ins.a < n && ins.b == 0 && ins.c == 0 && (fp.isZero(ins.imm) || ins.imm == ONE);
      case Move => valid := ins.a < n && ins.b < n && ins.c == 0 && ins.imm == ZERO;
      case Neg => valid := ins.a < n && ins.b < n && ins.c == 0 && ins.imm == ZERO;
      case Calc(_) => valid := ins.a < n && ins.b < n && ins.c < n && ins.imm == ZERO;
      case Test(_) => valid := ins.a < n && ins.b < n && ins.c < n && ins.imm == ZERO;
      case Jump => valid := ins.a < |p.code| && ins.b == 0 && ins.c == 0 && ins.imm == ZERO;
      case JumpIfFalse => valid := ins.a < n && ins.b < |p.code| && ins.c == 0 && ins.imm == ZERO;
      case Return => valid := ins.a < n && ins.b == 0 && ins.c == 0 && ins.imm == ZERO;
      case FunctionMark =>
        valid := p.minor >= CALL_MINOR && ins.a < count && ins.b <= n && ins.c <= n - ins.b && ins.imm == ZERO
              && functions[ins.a].start == pc + 1 && functions[ins.a].base == ins.b && functions[ins.a].arity == ins.c;
      case Call =>
        var arity := fp.whole(ins.imm);
        valid := p.minor >= CALL_MINOR && ins.a < n && ins.b < count && arity.Some?
              && ins.c <= n && arity.value <= n - ins.c && arity.value == functions[ins.b].arity;
      case Unknown(_) => valid := false;
    }
    if valid && p.minor >= CALL_MINOR && (ins.op.Jump? || ins.op.JumpIfFalse?) {
      var target := if ins.op.Jump? then ins.a else ins.b;
      if owners[target] != owners[pc] || p.code[target].op.FunctionMark? { valid := false; }
    }
  }

  method CheckTypes(fp: FloatModel, p: Program, functions: array<Info>, count: nat, owners: array<nat>, pc: nat)
      returns (valid: bool)
    requires 0 < count <= functions.Length && owners.Length == |p.code| && pc < |p.code|
    requires Owners(p, functions[..count], owners[..]) && BasesOk(p, functions[..count])
    requires OperandsOk(fp, p, functions[..count], pc) && |p.registerTypes| == p.registerCount
    ensures valid == TypesOk(fp, p, functions[..count], pc)
  {
    var ins, types := p.code[pc], p.registerTypes;
    match ins.op {
      case ConstF64 => valid := types[ins.a] == NUMBER_TAG;
      case ConstBool => valid := types[ins.a] == BOOLEAN_TAG;
      case Move => valid := types[ins.a] == types[ins.b];
      case Neg => valid := types[ins.a] == NUMBER_TAG && types[ins.b] == NUMBER_TAG;
      case Calc(_) => valid := types[ins.a] == NUMBER_TAG && types[ins.b] == NUMBER_TAG && types[ins.c] == NUMBER_TAG;
      case Test(op) =>
        if op.Equal? || op.NotEqual? {
          valid := types[ins.b] == types[ins.c] && types[ins.a] == BOOLEAN_TAG;
        } else {
          valid := types[ins.b] == NUMBER_TAG && types[ins.c] == NUMBER_TAG && types[ins.a] == BOOLEAN_TAG;
        }
      case JumpIfFalse => valid := types[ins.a] == BOOLEAN_TAG;
      case Return => valid := types[ins.a] == functions[owners[pc]].returnTag;
      case Call =>
        var arity, base := functions[ins.b].arity, functions[ins.b].base;
        assert functions[..count][ins.b].base + functions[..count][ins.b].arity <= p.registerCount;
        valid := types[ins.a] == functions[ins.b].returnTag;
        var i := 0;
        while valid && i < arity
          invariant i <= arity
          invariant valid ==> types[ins.a] == functions[ins.b].returnTag && forall k | 0 <= k < i :: SameTag(types, ins.c, base, k)
          invariant !valid ==> types[ins.a] != functions[ins.b].returnTag || exists k :: 0 <= k < i && !SameTag(types, ins.c, base, k)
        {
          valid := types[ins.c + i] == types[base + i];
          assert valid == SameTag(types, ins.c, base, i);
          i := i + 1;
        }
      case _ => valid := true;
    }
  }

  /** The edges the calls before position pc add. */
  ghost predicate EdgesTo(p: Program, fns: seq<Info>, edges: array2<bool>, pc: nat)
    requires |fns| > 0 && edges.Length0 == MAX_FUNCTIONS && edges.Length1 == MAX_FUNCTIONS && pc <= |p.code|
    reads edges
  {
    forall f, b | 0 <= f < MAX_FUNCTIONS && 0 <= b < MAX_FUNCTIONS ::
      edges[f, b] <==> exists k: nat :: CallAt(p, fns, f, b, k) && k < pc
  }

  ghost predicate CallAt(p: Program, fns: seq<Info>, f: nat, b: nat, k: nat)
    requires |fns| > 0
  {
    k < |p.code| && p.code[k].op.Call? && OwnerOf(fns, k) == f && p.code[k].b == b
  }

  lemma {:induction false} EdgesAreCalls(fp: FloatModel, p: Program, fns: seq<Info>, edges: array2<bool>)
    requires 0 < |fns| <= MAX_FUNCTIONS && edges.Length0 == MAX_FUNCTIONS && edges.Length1 == MAX_FUNCTIONS
    requires EdgesTo(p, fns, edges, |p.code|)
    requires forall pc | 0 <= pc < |p.code| :: OperandsOk(fp, p, fns, pc)
    ensures GraphOf(edges, |fns|) == CallEdges(p, fns)
  {
    var g, h := GraphOf(edges, |fns|), CallEdges(p, fns);
    forall f | 0 <= f < |fns|
      ensures g[f] == h[f]
    {
      forall b: nat
        ensures b in g[f] <==> b in h[f]
      {
        assert b in g[f] <==> b < |fns| && edges[f, b];
        if b in h[f] {
          var k: nat :| k < |p.code| && p.code[k].op.Call? && OwnerOf(fns, k) == f && p.code[k].b == b;
          assert OperandsOk(fp, p, fns, k);
          assert CallAt(p, fns, f, b, k);
        }
        if b in g[f] {
          var k: nat :| CallAt(p, fns, f, b, k) && k < |p.code|;
        }
      }
    }
  }

  /** All instructions in order, up to the first complaint; the calls are noted in the edge matrix. */
  method CheckCode(fp: FloatModel, p: Program, clean: nat, functions: array<Info>, count: nat, owners: array<nat>,
                   edges: array2<bool>)
      returns (status: Status)
    requires 0 < count <= functions.Length && count <= MAX_FUNCTIONS && owners.Length == |p.code|
    requires Owners(p, functions[..count], owners[..]) && BasesOk(p, functions[..count])
    requires p.minor == TYPED_MINOR ==> |p.registerTypes| == p.registerCount
    requires edges.Length0 == MAX_FUNCTIONS && edges.Length1 == MAX_FUNCTIONS
    requires EdgesTo(p, functions[..count], edges, 0)
    modifies edges
    ensures status == RecordStatus(fp, p, functions[..count], clean, 0)
    ensures status == Ok ==> GraphOf(edges, count) == CallEdges(p, functions[..count])
  {
    ghost var fns := functions[..count];
    for pc := 0 to |p.code|
      invariant RecordStatus(fp, p, fns, clean, 0) == RecordStatus(fp, p, fns, clean, pc)
      invariant forall k | 0 <= k < pc :: OperandsOk(fp, p, fns, k)
      invariant EdgesTo(p, fns, edges, pc)
    {
      if pc == clean { return BadFormat; }
      if p.code[pc].op.Unknown? { return BadOpcode; }
      var valid := CheckOperands(fp, p, functions, count, owners, pc);
      if !valid { return BadOperand; }
      if p.code[pc].op.Call? { NoteCall(p, functions, count, owners, edges, pc); }
      else { SkipCall(p, fns, edges, pc); }
      if p.minor == TYPED_MINOR {
        valid := CheckTypes(fp, p, functions, count, owners, pc);
        if !valid { return BadType; }
      }
    }
    EdgesAreCalls(fp, p, fns, edges);
    status := Ok;
  }

  lemma {:induction false} SkipCall(p: Program, fns: seq<Info>, edges: array2<bool>, pc: nat)
    requires |fns| > 0 && edges.Length0 == MAX_FUNCTIONS && edges.Length1 == MAX_FUNCTIONS && pc < |p.code|
    requires EdgesTo(p, fns, edges, pc) && !p.code[pc].op.Call?
    ensures EdgesTo(p, fns, edges, pc + 1)
  {
    forall f, b | 0 <= f < MAX_FUNCTIONS && 0 <= b < MAX_FUNCTIONS
      ensures edges[f, b] <==> exists k: nat :: CallAt(p, fns, f, b, k) && k < pc + 1
    {
    }
  }

  method NoteCall(p: Program, functions: array<Info>, count: nat, owners: array<nat>, edges: array2<bool>, pc: nat)
    requires 0 < count <= functions.Length && count <= MAX_FUNCTIONS && owners.Length == |p.code| && pc < |p.code|
    requires Owners(p, functions[..count], owners[..])
    requires edges.Length0 == MAX_FUNCTIONS && edges.Length1 == MAX_FUNCTIONS
    requires EdgesTo(p, functions[..count], edges, pc) && p.code[pc].op.Call? && p.code[pc].b < count
    modifies edges
    ensures EdgesTo(p, functions[..count], edges, pc + 1)
  {
    ghost var fns := functions[..count];
    var target := p.code[pc].b;
    edges[owners[pc], target] := true;
    assert CallAt(p, fns, OwnerOf(fns, pc), target, pc);
    forall f, b | 0 <= f < MAX_FUNCTIONS && 0 <= b < MAX_FUNCTIONS
      ensures edges[f, b] <==> exists k: nat :: CallAt(p, fns, f, b, k) && k < pc + 1
    {
      if edges[f, b] && !(f == OwnerOf(fns, pc) && b == target) {
        var k: nat :| CallAt(p, fns, f, b, k) && k < pc;
      }
    }
  }

  // ----- the whole verifier -----

  /** The verifier gives exactly the verdict of its specification, and accepts exactly the programs that are well made. */
  method Verify(fp: FloatModel, p: Program) returns (status: Status)
    ensures status == VerifyStatus(fp, p)
    ensures status == Ok <==> Signatures.WellMade(fp, p)
  {
    Signatures.AcceptsIff(fp, p);
    CleanStatus(fp, p, |p.code|);
    status := VerifyRecords(fp, p, |p.code|);
  }

  /** The verifier, for records of which the first `clean` have no reserved bytes set. */
  method VerifyRecords(fp: FloatModel, p: Program, clean: nat) returns (status: Status)
    ensures status == RecordsStatus(fp, p, clean)
  {
    if p.minor > TYPED_MINOR { return BadVersion; }
    if p.registerCount == 0 || p.registerCount > MAX_REGISTERS || |p.code| == 0 || |p.code| > MAX_INSTRUCTIONS {
      return LimitExceeded;
    }
    var functions := new Info[MAX_FUNCTIONS](_ => Info(0, 0, 0, 0, 0));
    var count: nat := 1;
    if p.minor < CALL_MINOR {
      functions[0] := Info(0, |p.code|, 0, 0, 0);
    } else {
      status, count := ReadTable(p, functions);
      if status != Ok { return; }
      if p.minor == TYPED_MINOR {
        status := ReadTags(p, functions, count);
        if status != Ok { return; }
      }
    }
    ghost var fns := Table(p);
    assert functions[..count] == fns;
    TableFacts(p);
    status := VerifyBodies(fp, p, clean, functions, count);
  }

  /** Instructions, then the call graph, then control flow. */
  method VerifyBodies(fp: FloatModel, p: Program, clean: nat, functions: array<Info>, count: nat) returns (status: Status)
    requires 0 < |p.code| && TableStatus(p) == Ok && (p.minor == TYPED_MINOR ==> TagsOk(p))
    requires 0 < count <= functions.Length && count <= MAX_FUNCTIONS && functions[..count] == Table(p)
    requires Tiled(p, Table(p)) && BasesOk(p, Table(p))
    ensures status
         == if RecordStatus(fp, p, Table(p), clean, 0) != Ok then RecordStatus(fp, p, Table(p), clean, 0)
            else if !Ranked(CallEdges(p, Table(p))) || !AllFlowsOk(p, Table(p))
            then BadControlFlow else Ok
  {
    ghost var fns := Table(p);
    var owners := new nat[|p.code|];
    FillOwners(p, functions, count, owners);
    ghost var filled := owners[..];
    var edges := new bool[MAX_FUNCTIONS, MAX_FUNCTIONS]((_, _) => false);
    status := CheckCode(fp, p, clean, functions, count, owners, edges);
    if status != Ok { return; }
    var verdict := Search(edges, count);
    if verdict != Acyclic { return BadControlFlow; }
    assert owners[..] == filled && functions[..count] == fns;
    assert Ranked(CallEdges(p, fns));
    status := CheckFlows(p, functions, count, owners);
  }

  method CheckFlows(p: Program, functions: array<Info>, count: nat, owners: array<nat>) returns (status: Status)
    requires 0 < count <= functions.Length && owners.Length == |p.code|
    requires Owners(p, functions[..count], owners[..]) && Tiled(p, functions[..count])
    ensures status == if AllFlowsOk(p, functions[..count]) then Ok else BadControlFlow
  {
    ghost var fns := functions[..count];
    for f := 0 to count
      invariant forall h | 0 <= h < f :: FlowsOk(p, fns, h)
    {
      assert fns[f].start < fns[f].end <= |p.code|;
      var good := CheckFlow(p, functions, count, owners, f);
      if !good { return BadControlFlow; }
    }
    status := Ok;
  }
}
