/** Call graphs: a graph has no cycle exactly when its nodes can be ranked so that every edge goes
    down, and the two depth-first searches of the pipeline decide just that. */
module CallGraph {

  /** Node f has an edge to each element of g[f]. */
  type Graph = seq<set<nat>>

  ghost predicate IsRank(g: Graph, rank: seq<nat>) {
    && |rank| == |g|
    && (forall f | 0 <= f < |g| :: rank[f] < |g|)
    && (forall f, h {:trigger h in g[f]} | 0 <= f < |g| && h in g[f] :: h < |g| && rank[h] < rank[f])
  }

  ghost predicate Ranked(g: Graph) { exists rank :: IsRank(g, rank) }

  ghost predicate Closed(g: Graph) { forall f, h | 0 <= f < |g| && h in g[f] :: h < |g| }

  ghost predicate IsPath(g: Graph, path: seq<nat>) {
    && |path| > 0
    && (forall i | 0 <= i < |path| :: path[i] < |g|)
    && (forall i, j | 0 <= i < j < |path| && j == i + 1 :: path[j] in g[path[i]])
  }

  ghost predicate IsCycle(g: Graph, path: seq<nat>) {
    IsPath(g, path) && |path| >= 2 && path[0] == path[|path| - 1]
  }

  ghost predicate HasCycle(g: Graph) { exists path :: IsCycle(g, path) }

  /** The end of a path that returns to an earlier node is a cycle. */
  lemma {:induction false} CycleFrom(g: Graph, path: seq<nat>, k: nat)
    requires IsPath(g, path) && k < |path| - 1 && path[k] == path[|path| - 1]
    ensures HasCycle(g)
  {
    var cycle := path[k..];
    forall i, j | 0 <= i < j < |cycle| && j == i + 1
      ensures cycle[j] in g[cycle[i]]
    {
      assert path[k + j] in g[path[k + i]];
    }
    assert IsCycle(g, cycle);
  }

  lemma {:induction false} RankFallsAlong(g: Graph, rank: seq<nat>, path: seq<nat>, i: nat, j: nat)
    requires IsRank(g, rank) && IsPath(g, path) && i < j < |path|
    ensures rank[path[j]] < rank[path[i]]
    decreases j
  {
    if i + 1 < j { RankFallsAlong(g, rank, path, i, j - 1); }
    assert path[j] in g[path[j - 1]];
  }

  lemma {:induction false} RankedHasNoCycle(g: Graph)
    requires Ranked(g)
    ensures !HasCycle(g)
  {
    var rank :| IsRank(g, rank);
    forall path | IsCycle(g, path)
      ensures false
    {
      RankFallsAlong(g, rank, path, 0, |path| - 1);
    }
  }

  // ----- finite counting -----

  ghost predicate Distinct(s: seq<nat>) { forall i, j | 0 <= i < j < |s| :: s[i] != s[j] }

  ghost predicate Below(s: seq<nat>, n: nat) { forall i | 0 <= i < |s| :: s[i] < n }

  lemma {:induction false} DistinctBound(s: seq<nat>, n: nat)
    requires Distinct(s) && Below(s, n)
    ensures |s| <= n
    decreases n
  {
    if s != [] {
      assert s[0] < n;
      if k :| 0 <= k < |s| && s[k] == n - 1 {
        DistinctBound(s[..k] + s[k + 1..], n - 1);
      } else {
        DistinctBound(s, n - 1);
      }
    }
  }

  // ----- an acyclic graph can be ranked -----

  /** Nodes in the order a search leaves them: each after all its successors. */
  ghost predicate IsOrder(g: Graph, order: seq<nat>) {
    && Distinct(order) && Below(order, |g|)
    && forall k, h | 0 <= k < |order| && h in g[order[k]] :: h in order[..k]
  }

  ghost function Position(order: seq<nat>, v: nat): (k: nat)
    requires v in order
    ensures k < |order| && order[k] == v
  {
    var k :| 0 <= k < |order| && order[k] == v; k
  }

  /** A complete order is a ranking. */
  lemma {:induction false} OrderRanks(g: Graph, order: seq<nat>)
    requires IsOrder(g, order) && forall v | 0 <= v < |g| :: v in order
    ensures Ranked(g)
  {
    DistinctBound(order, |g|);
    var rank := seq(|g|, v requires 0 <= v < |g| => Position(order, v));
    forall f, h | 0 <= f < |g| && h in g[f]
      ensures h < |g| && rank[h] < rank[f]
    {
      var k := Position(order, f);
      assert h in order[..k];
      var j :| 0 <= j < k && order[j] == h;
      assert Position(order, h) == j;
    }
    assert IsRank(g, rank);
  }

  /** A path that leaves the order at every node would be too long, so some node outside the order
      has all its successors inside. */
  lemma {:induction false} SinkOrLongPath(g: Graph, order: seq<nat>, path: seq<nat>)
      returns (v: nat)
    requires Closed(g) && !HasCycle(g)
    requires IsPath(g, path) && Distinct(path) && forall i | 0 <= i < |path| :: path[i] !in order
    ensures v < |g| && v !in order && forall h | h in g[v] :: h in order
    decreases |g| - |path|
  {
    v := path[|path| - 1];
    if h :| h in g[v] && h !in order {
      var longer := path + [h];
      assert IsPath(g, longer);
      if k :| 0 <= k < |path| && path[k] == h {
        CycleFrom(g, longer, k);
        assert false;
      }
      DistinctBound(longer, |g|);
      v := SinkOrLongPath(g, order, longer);
    }
  }

  lemma {:induction false} CompleteOrder(g: Graph, order: seq<nat>)
    requires Closed(g) && !HasCycle(g) && IsOrder(g, order)
    ensures Ranked(g)
    decreases |g| - |order|
  {
    if v :| 0 <= v < |g| && v !in order {
      var u := SinkOrLongPath(g, order, [v]);
      var more := order + [u];
      forall k, h | 0 <= k < |more| && h in g[more[k]]
        ensures h in more[..k]
      {
        if k < |order| { assert more[..k] == order[..k]; } else { assert more[..k] == order; }
      }
      DistinctBound(more, |g|);
      CompleteOrder(g, more);
    } else {
      OrderRanks(g, order);
    }
  }

  /** The two readings of "no recursion" are the same. */
  lemma {:induction false} RankedIffAcyclic(g: Graph)
    requires Closed(g)
    ensures Ranked(g) <==> !HasCycle(g)
  {
    if Ranked(g) { RankedHasNoCycle(g); }
    if !HasCycle(g) { CompleteOrder(g, []); }
  }

  // ----- the searches -----

  /** The graph held in the first `count` rows and columns of an edge matrix. */
  ghost function GraphOf(edges: array2<bool>, count: nat): (g: Graph)
    requires count <= edges.Length0 && count <= edges.Length1
    reads edges
    ensures |g| == count && Closed(g)
  {
    seq(count, f requires 0 <= f < count <= edges.Length0 && count <= edges.Length1 reads edges =>
      set h: nat | h < count && edges[f, h])
  }

  const WHITE: nat := 0
  const GREY: nat := 1
  const BLACK: nat := 2

  /** Grey is the path being explored, black is what the search has left. */
  ghost predicate Colored(g: Graph, color: array<nat>, grey: seq<nat>, order: seq<nat>)
    requires |g| <= color.Length
    reads color
  {
    && IsOrder(g, order)
    && (forall v | 0 <= v < |g| :: color[v] <= BLACK)
    && (forall v | 0 <= v < |g| :: color[v] == GREY <==> v in grey)
    && (forall v | 0 <= v < |g| :: color[v] == BLACK <==> v in order)
  }

  /** An edge back into the path closes a cycle. */
  lemma {:induction false} BackEdge(g: Graph, path: seq<nat>, k: nat, h: nat)
    requires IsPath(g, path) && k < |path| && path[k] == h && h in g[path[|path| - 1]]
    ensures HasCycle(g)
  {
    var longer := path + [h];
    assert IsPath(g, longer);
    CycleFrom(g, longer, k);
  }

  lemma {:induction false} ExtendOrder(g: Graph, order: seq<nat>, f: nat)
    requires IsOrder(g, order) && f < |g| && f !in order && forall h | h in g[f] :: h in order
    ensures IsOrder(g, order + [f])
  {
    var more := order + [f];
    forall k, h | 0 <= k < |more| && h in g[more[k]]
      ensures h in more[..k]
    {
      if k < |order| { assert more[..k] == order[..k]; } else { assert more[..k] == order; }
    }
  }

  /** The compiler's recursive search from one function.  `path` is the chain of callers above it. */
  method Visit(edges: array2<bool>, count: nat, color: array<nat>, f: nat, depth: nat,
               ghost path: seq<nat>, ghost order: seq<nat>)
      returns (ok: bool, ghost order': seq<nat>)
    requires count <= 64 <= edges.Length0 && 64 <= edges.Length1 && count <= color.Length
    requires f < count && depth == |path| + 1
    requires IsPath(GraphOf(edges, count), path + [f]) && Distinct(path)
    requires Colored(GraphOf(edges, count), color, path, order) && color[f] == WHITE
    modifies color
    ensures ok ==>
              && Colored(GraphOf(edges, count), color, path, order')
              && order <= order' && f in order'
    ensures !ok ==> HasCycle(GraphOf(edges, count))
    decreases count - |path|
  {
    ghost var g := GraphOf(edges, count);
    ghost var here := path + [f];
    assert Distinct(here);
    DistinctBound(here, count);
    order' := order;
    if depth > 64 { return false, order'; }
    color[f] := GREY;
    var target := 0;
    while target < count
      invariant target <= count
      invariant Colored(g, color, here, order') && order <= order'
      invariant forall h: nat | h < target && edges[f, h] :: h in order'
    {
      if edges[f, target] {
        assert target in g[f];
        if color[target] == GREY {
          ghost var k :| 0 <= k < |here| && here[k] == target;
          BackEdge(g, here, k, target);
          return false, order';
        }
        if color[target] == WHITE {
          assert IsPath(g, here + [target]);
          ghost var before := order';
          ok, order' := Visit(edges, count, color, target, depth + 1, here, order');
          if !ok { return false, order'; }
          assert forall h: nat | h < target && edges[f, h] :: h in before && h in order';
        }
      }
      target := target + 1;
    }
    color[f] := BLACK;
    ExtendOrder(g, order', f);
    order' := order' + [f];
    ok := true;
  }

  /** The compiler's check of all functions: it accepts exactly the graphs without a cycle. */
  method VisitAll(edges: array2<bool>, count: nat) returns (ok: bool)
    requires count <= 64 <= edges.Length0 && 64 <= edges.Length1
    ensures ok <==> Ranked(GraphOf(edges, count))
    ensures ok <==> !HasCycle(GraphOf(edges, count))
  {
    ghost var g := GraphOf(edges, count);
    RankedIffAcyclic(g);
    var color := new nat[64](_ => WHITE);
    ghost var order: seq<nat> := [];
    var i := 0;
    while i < count
      invariant i <= count
      invariant Colored(g, color, [], order)
      invariant forall v: nat | v < i :: v in order
    {
      if color[i] == WHITE {
        ghost var before := order;
        assert IsPath(g, [] + [i]);
        ok, order := Visit(edges, count, color, i, 1, [], order);
        if !ok { return false; }
        assert forall v: nat | v < i :: v in before && v in order;
      }
      i := i + 1;
    }
    OrderRanks(g, order);
    ok := true;
  }

  datatype Verdict = Acyclic | Recursive | TooDeep

  /** What the iterative search holds: a colour per node, the stack, and for each entry of the stack
      how far its row has been scanned. */
  datatype Trail = Trail(color: seq<nat>, stack: seq<nat>, next: seq<nat>)

  /** The stack is a path; the colours say what the search has left and what it is exploring. */
  ghost predicate ColorsOk(g: Graph, color: seq<nat>, stack: seq<nat>, order: seq<nat>) {
    && |g| <= |color|
    && (stack != [] ==> IsPath(g, stack)) && Distinct(stack)
    && IsOrder(g, order)
    && (forall v | 0 <= v < |g| :: color[v] <= BLACK)
    && (forall v | 0 <= v < |g| :: color[v] == BLACK <==> v in order)
    && (forall v | 0 <= v < |g| && color[v] == GREY :: v in stack)
    && (forall i | 0 <= i < |stack| :: color[stack[i]] != BLACK)
    && (forall i | 0 <= i < |stack| - 1 :: color[stack[i]] == GREY)
  }

  /** The row of f up to `upto` has been explored. */
  ghost predicate RowDone(g: Graph, order: seq<nat>, f: nat, upto: int) {
    f < |g| && upto <= |g| && forall h | h in g[f] && h < upto :: h in order
  }

  /** Below the top, the edge being explored leads to the next entry and is not done yet. */
  ghost predicate RowsOk(g: Graph, stack: seq<nat>, next: seq<nat>, order: seq<nat>) {
    && |next| == |stack|
    && (forall i, j | 0 <= i < j < |stack| && j == i + 1 ::
          next[i] == stack[j] + 1 && RowDone(g, order, stack[i], stack[j]))
    && (stack != [] ==> RowDone(g, order, stack[|stack| - 1], next[|stack| - 1]))
  }

  ghost predicate TrailOk(g: Graph, t: Trail, order: seq<nat>) {
    ColorsOk(g, t.color, t.stack, order) && RowsOk(g, t.stack, t.next, order)
  }

  /** The first edge of a row at or after `from`, or the end of the row. */
  function NextEdge(row: set<nat>, from: nat, count: nat): (r: nat)
    requires from <= count
    ensures from <= r <= count && (r < count ==> r in row)
    ensures forall h | h in row && from <= h :: r <= h || count <= h
    decreases count - from
  {
    if from == count || from in row then from else NextEdge(row, from + 1, count)
  }

  ghost predicate Runnable(g: Graph, t: Trail) {
    && |g| <= |t.color| && |t.next| == |t.stack| && 0 < |t.stack|
    && t.stack[|t.stack| - 1] < |g| && t.next[|t.stack| - 1] <= |g|
  }

  /** The colours a turn starts from: the top node is at least grey. */
  ghost function Shade(t: Trail): seq<nat>
    requires t.stack != [] && t.stack[|t.stack| - 1] < |t.color|
  {
    var f := t.stack[|t.stack| - 1];
    if t.color[f] == WHITE then t.color[f := GREY] else t.color
  }

  /** One turn of the search, given the next edge of the top row or `count` at its end: leave the top
      node, enter a white successor, or pass over a black one. */
  ghost function Turn(t: Trail, target: nat, count: nat): Trail
    requires t.stack != [] && |t.next| == |t.stack| && t.stack[|t.stack| - 1] < count <= |t.color| && target <= count
  {
    var n := |t.stack| - 1;
    if target == count then Trail(Shade(t)[t.stack[n] := BLACK], t.stack[..n], t.next[..n])
    else if Shade(t)[target] == WHITE && |t.stack| < 64 then
      Trail(Shade(t), t.stack + [target], t.next[..n] + [target + 1] + [0])
    else Trail(Shade(t), t.stack, t.next[..n] + [target + 1])
  }

  ghost function TurnVerdict(t: Trail, target: nat, count: nat): Verdict
    requires t.stack != [] && t.stack[|t.stack| - 1] < count <= |t.color| && target <= count
  {
    if target == count then Acyclic
    else if Shade(t)[target] == GREY then Recursive
    else if Shade(t)[target] == WHITE && |t.stack| >= 64 then TooDeep
    else Acyclic
  }

  /** The nodes the search has left after a turn. */
  ghost function OrderAfter(t: Trail, target: nat, count: nat, order: seq<nat>): seq<nat>
    requires t.stack != []
  {
    if target == count then order + [t.stack[|t.stack| - 1]] else order
  }

  ghost function TargetOf(g: Graph, t: Trail): nat
    requires Runnable(g, t)
  {
    NextEdge(g[t.stack[|t.stack| - 1]], t.next[|t.stack| - 1], |g|)
  }

  lemma {:induction false} Darken(g: Graph, t: Trail, order: seq<nat>)
    requires ColorsOk(g, t.color, t.stack, order) && t.stack != []
    ensures ColorsOk(g, Shade(t), t.stack, order)
  {
  }

  lemma {:induction false} FinishColors(g: Graph, color: seq<nat>, stack: seq<nat>, order: seq<nat>)
    requires ColorsOk(g, color, stack, order) && stack != []
    requires forall h | h in g[stack[|stack| - 1]] :: h in order
    ensures var n := |stack| - 1;
            ColorsOk(g, color[stack[n] := BLACK], stack[..n], order + [stack[n]])
  {
    var n := |stack| - 1;
    var f := stack[n];
    ExtendOrder(g, order, f);
    var color', stack', order' := color[f := BLACK], stack[..n], order + [f];
    if n > 0 { assert IsPath(g, stack'); }
    forall v | 0 <= v < |g| && color'[v] == GREY
      ensures v in stack'
    {
      var k :| 0 <= k < |stack| && stack[k] == v;
      assert stack'[k] == v;
    }
    forall v | 0 <= v < |g|
      ensures color'[v] == BLACK <==> v in order'
    {
      assert order'[|order|] == f;
      if v in order { var k :| 0 <= k < |order| && order[k] == v; assert order'[k] == v; }
    }
  }

  lemma {:induction false} FinishRows(g: Graph, stack: seq<nat>, next: seq<nat>, order: seq<nat>)
    requires RowsOk(g, stack, next, order) && stack != []
    ensures var n := |stack| - 1;
            RowsOk(g, stack[..n], next[..n], order + [stack[n]])
  {
    var n := |stack| - 1;
    var order' := order + [stack[n]];
    assert forall v | v in order :: v in order';
    assert order'[|order|] == stack[n];
    if n > 0 {
      assert RowDone(g, order, stack[n - 1], stack[n]);
      assert RowDone(g, order', stack[n - 1], next[n - 1]);
    }
    forall i, j | 0 <= i < j < n && j == i + 1
      ensures RowDone(g, order', stack[i], stack[j])
    {
      assert RowDone(g, order, stack[i], stack[j]);
    }
  }

  lemma {:induction false} PushColors(g: Graph, color: seq<nat>, stack: seq<nat>, order: seq<nat>, target: nat)
    requires ColorsOk(g, color, stack, order) && stack != []
    requires target < |g| && target in g[stack[|stack| - 1]]
    requires color[stack[|stack| - 1]] == GREY && color[target] == WHITE
    ensures |stack| < |g|
    ensures ColorsOk(g, color, stack + [target], order)
  {
    assert forall i | 0 <= i < |stack| :: color[stack[i]] != BLACK;
    NotOnStack(color, stack, target);
    PushPath(g, stack, target);
    DistinctBound(stack + [target], |g|);
    assert forall v | v in stack :: v in stack + [target];
  }

  /** A white node is not below the top of the stack, where all are grey, and not the top itself. */
  lemma {:induction false} NotOnStack(color: seq<nat>, stack: seq<nat>, target: nat)
    requires stack != [] && target < |color| && color[target] == WHITE
    requires forall i | 0 <= i < |stack| :: stack[i] < |color| && color[stack[i]] == GREY
    ensures target !in stack
  {
  }

  lemma {:induction false} PushPath(g: Graph, stack: seq<nat>, target: nat)
    requires stack != [] && IsPath(g, stack) && Distinct(stack) && target !in stack
    requires target < |g| && target in g[stack[|stack| - 1]]
    ensures IsPath(g, stack + [target]) && Distinct(stack + [target])
  {
  }

  lemma {:induction false} PushRows(g: Graph, stack: seq<nat>, next: seq<nat>, order: seq<nat>, target: nat)
    requires RowsOk(g, stack, next, order) && stack != []
    requires target == NextEdge(g[stack[|stack| - 1]], next[|stack| - 1], |g|) < |g|
    ensures RowsOk(g, stack + [target], next[..|stack| - 1] + [target + 1] + [0], order)
  {
    assert RowDone(g, order, stack[|stack| - 1], target);
  }

  lemma {:induction false} PassRow(g: Graph, stack: seq<nat>, next: seq<nat>, order: seq<nat>, target: nat)
    requires RowsOk(g, stack, next, order) && stack != []
    requires target == NextEdge(g[stack[|stack| - 1]], next[|stack| - 1], |g|) < |g|
    requires target in order
    ensures RowsOk(g, stack, next[..|stack| - 1] + [target + 1], order)
  {
    assert RowDone(g, order, stack[|stack| - 1], target + 1);
  }

  lemma {:induction false} FinishTurn(g: Graph, t: Trail, order: seq<nat>)
    requires Closed(g) && TrailOk(g, t, order) && Runnable(g, t) && TargetOf(g, t) == |g|
    ensures TrailOk(g, Turn(t, |g|, |g|), OrderAfter(t, |g|, |g|, order))
  {
    Darken(g, t, order);
    assert forall h | h in g[t.stack[|t.stack| - 1]] :: h in order;
    FinishColors(g, Shade(t), t.stack, order);
    FinishRows(g, t.stack, t.next, order);
  }

  lemma {:induction false} PushTurn(g: Graph, t: Trail, order: seq<nat>, target: nat)
    requires Closed(g) && |g| <= 64 && TrailOk(g, t, order) && Runnable(g, t)
    requires target == TargetOf(g, t) < |g| && Shade(t)[target] == WHITE
    ensures |t.stack| < |g| && TrailOk(g, Turn(t, target, |g|), order)
  {
    Darken(g, t, order);
    PushColors(g, Shade(t), t.stack, order, target);
    PushRows(g, t.stack, t.next, order, target);
  }

  lemma {:induction false} PassTurn(g: Graph, t: Trail, order: seq<nat>, target: nat)
    requires TrailOk(g, t, order) && Runnable(g, t)
    requires target == TargetOf(g, t) < |g| && Shade(t)[target] == BLACK
    ensures TrailOk(g, Turn(t, target, |g|), order)
  {
    Darken(g, t, order);
    PassRow(g, t.stack, t.next, order, target);
  }

  /** A turn keeps the trail in order, and can only stop at a cycle. */
  lemma {:induction false} TurnOk(g: Graph, t: Trail, order: seq<nat>, target: nat)
    requires Closed(g) && |g| <= 64 && TrailOk(g, t, order) && Runnable(g, t) && target == TargetOf(g, t)
    ensures TurnVerdict(t, target, |g|) == Acyclic ==>
              TrailOk(g, Turn(t, target, |g|), OrderAfter(t, target, |g|, order))
    ensures TurnVerdict(t, target, |g|) == Recursive ==> HasCycle(g)
    ensures TurnVerdict(t, target, |g|) != TooDeep
  {
    if target == |g| {
      FinishTurn(g, t, order);
    } else if Shade(t)[target] == BLACK {
      PassTurn(g, t, order, target);
    } else if Shade(t)[target] == GREY {
      assert target in t.stack;
      var k :| 0 <= k < |t.stack| && t.stack[k] == target;
      BackEdge(g, t.stack, k, target);
    } else {
      PushTurn(g, t, order, target);
    }
  }

  /** Moves the cursor of a row to its next edge, or to its end. */
  method ScanRow(edges: array2<bool>, count: nat, f: nat, next: array<nat>, top: nat)
    requires count <= edges.Length0 && count <= edges.Length1 && f < count && top < next.Length && next[top] <= count
    modifies next
    ensures next[..] == old(next[..])[top := NextEdge(GraphOf(edges, count)[f], old(next[top]), count)]
  {
    ghost var row := GraphOf(edges, count)[f];
    while next[top] < count && !edges[f, next[top]]
      invariant next[top] <= count
      invariant next[..] == old(next[..])[top := next[top]]
      invariant NextEdge(row, next[top], count) == NextEdge(row, old(next[top]), count)
      decreases count - next[top]
    {
      next[top] := next[top] + 1;
    }
  }

  /** What the search from one root keeps: the trail in order, the root at its bottom until it is left. */
  ghost predicate Searching(g: Graph, t: Trail, root: nat, before: seq<nat>, order: seq<nat>) {
    && TrailOk(g, t, order)
    && (forall v | v in before :: v in order)
    && (if t.stack == [] then root in order else t.stack[0] == root)
  }

  lemma {:induction false} StartSearch(g: Graph, color: seq<nat>, root: nat, order: seq<nat>)
    requires TrailOk(g, Trail(color, [], []), order) && root < |g| && color[root] == WHITE
    ensures Searching(g, Trail(color, [root], [0]), root, order, order)
  {
    assert RowDone(g, order, root, 0);
  }

  lemma {:induction false} KeepSearching(g: Graph, t: Trail, root: nat, before: seq<nat>, order: seq<nat>)
    requires Closed(g) && |g| <= 64 && Searching(g, t, root, before, order) && t.stack != []
    ensures Runnable(g, t) && |t.stack| <= |g| && |order| <= |g|
    ensures var target := TargetOf(g, t);
            && (TurnVerdict(t, target, |g|) == Acyclic ==>
                  Searching(g, Turn(t, target, |g|), root, before, OrderAfter(t, target, |g|, order)))
            && (TurnVerdict(t, target, |g|) == Recursive ==> HasCycle(g))
            && TurnVerdict(t, target, |g|) != TooDeep
  {
    var target := TargetOf(g, t);
    TurnOk(g, t, order, target);
    DistinctBound(t.stack, |g|);
    DistinctBound(order, |g|);
    var order' := OrderAfter(t, target, |g|, order);
    assert target == |g| ==> order'[|order|] == t.stack[|t.stack| - 1];
    assert forall v | v in order :: v in order';
  }

  method SearchStep(edges: array2<bool>, count: nat, color: array<nat>, stack: array<nat>, next: array<nat>, depth: nat)
      returns (verdict: Verdict, depth': nat)
    requires count <= 64 <= edges.Length0 && 64 <= edges.Length1
    requires count <= color.Length && 64 == stack.Length == next.Length
    requires color != stack && color != next && stack != next
    requires depth <= 64 && Runnable(GraphOf(edges, count), Trail(color[..], stack[..depth], next[..depth]))
    modifies color, stack, next
    ensures depth' <= 64
    ensures var t := old(Trail(color[..], stack[..depth], next[..depth]));
            var target := TargetOf(GraphOf(edges, count), t);
            && verdict == TurnVerdict(t, target, count)
            && Trail(color[..], stack[..depth'], next[..depth']) == Turn(t, target, count)
  {
    ghost var was := Trail(color[..], stack[..depth], next[..depth]);
    depth' := depth;
    var f := stack[depth - 1];
    if color[f] == WHITE { color[f] := GREY; }
    ScanRow(edges, count, f, next, depth - 1);
    if next[depth - 1] == count {
      color[f] := BLACK;
      depth' := depth - 1;
      assert stack[..depth'] == was.stack[..depth - 1] && next[..depth'] == was.next[..depth - 1];
      return Acyclic, depth';
    }
    var target := next[depth - 1];
    next[depth - 1] := target + 1;
    assert next[..depth] == was.next[..depth - 1] + [target + 1];
    if color[target] == GREY { return Recursive, depth'; }
    if color[target] == WHITE {
      if depth >= 64 { return TooDeep, depth'; }
      depth' := PushTarget(stack, next, depth, target);
    }
    verdict := Acyclic;
  }

  method PushTarget(stack: array<nat>, next: array<nat>, depth: nat, target: nat) returns (depth': nat)
    requires depth < stack.Length == next.Length && stack != next
    modifies stack, next
    ensures depth' == depth + 1
    ensures stack[..depth'] == old(stack[..depth]) + [target] && next[..depth'] == old(next[..depth]) + [0]
  {
    stack[depth], next[depth] := target, 0;
    depth' := depth + 1;
  }

  /** The search from one root. */
  method SearchFrom(edges: array2<bool>, count: nat, color: array<nat>, root: nat, ghost order: seq<nat>)
      returns (verdict: Verdict, ghost order': seq<nat>)
    requires count <= 64 <= edges.Length0 && 64 <= edges.Length1 && count <= color.Length
    requires root < count && color[root] == WHITE
    requires TrailOk(GraphOf(edges, count), Trail(color[..], [], []), order)
    modifies color
    ensures verdict != TooDeep
    ensures verdict == Recursive ==> HasCycle(GraphOf(edges, count))
    ensures verdict == Acyclic ==>
              && TrailOk(GraphOf(edges, count), Trail(color[..], [], []), order')
              && (forall v | v in order :: v in order') && root in order'
  {
    ghost var g := GraphOf(edges, count);
    order' := order;
    var stack := new nat[64];
    var next := new nat[64];
    stack[0], next[0] := root, 0;
    var depth: nat := 1;
    ghost var t := Trail(color[..], [root], [0]);
    StartSearch(g, color[..], root, order);
    while depth > 0
      invariant depth <= 64
      invariant t == Trail(color[..], stack[..depth], next[..depth])
      invariant Searching(g, t, root, order, order')
      decreases count - |order'|, count - |t.stack|, if t.stack != [] then count - t.next[|t.stack| - 1] else 0
    {
      KeepSearching(g, t, root, order, order');
      ghost var target := TargetOf(g, t);
      order' := OrderAfter(t, target, count, order');
      t := Turn(t, target, count);
      verdict, depth := SearchStep(edges, count, color, stack, next, depth);
      if verdict != Acyclic { return; }
    }
    verdict := Acyclic;
  }

  /** The verifier's check: it accepts exactly the graphs without a cycle, and with at most 64 functions
      its own limit on the stack is never met. */
  method Search(edges: array2<bool>, count: nat) returns (verdict: Verdict)
    requires count <= 64 <= edges.Length0 && 64 <= edges.Length1
    ensures verdict == Acyclic <==> Ranked(GraphOf(edges, count))
    ensures verdict == Recursive <==> HasCycle(GraphOf(edges, count))
  {
    ghost var g := GraphOf(edges, count);
    RankedIffAcyclic(g);
    var color := new nat[64](_ => WHITE);
    ghost var order: seq<nat> := [];
    var root := 0;
    while root < count
      invariant root <= count
      invariant TrailOk(g, Trail(color[..], [], []), order)
      invariant forall v: nat | v < root :: v in order
    {
      if color[root] == WHITE {
        ghost var before := order;
        verdict, order := SearchFrom(edges, count, color, root, order);
        if verdict != Acyclic { return; }
        assert forall v: nat | v < root :: v in before && v in order;
      }
      root := root + 1;
    }
    OrderRanks(g, order);
    verdict := Acyclic;
  }
}
