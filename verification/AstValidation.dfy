/** The graph part of AST validation: it stops on every finite node graph, cyclic ones included, and accepts
    exactly the trees whose parent links and source spans agree. */
module AstValidation {
  import opened Wrappers
  import opened PointerSet

  datatype Span = Span(
    line: int, column: int, endLine: int, endColumn: int, startOffset: nat, endOffset: nat)

  /** A node; nodes are known by their index.  `sound` stands for the checks on annotations and payload,
      which look at no other node. */
  datatype Node = Node(parent: Option<nat>, children: seq<Option<nat>>, span: Option<Span>, sound: bool)

  type Graph = seq<Node>

  /** Pointers lead to nodes. */
  predicate Closed(g: Graph) {
    forall n, i | 0 <= n < |g| && 0 <= i < |g[n].children| :: g[n].children[i].Some? ==> g[n].children[i].value < |g|
  }

  predicate SpanOk(s: Span) {
    && s.line >= 1 && s.column >= 1 && s.endLine >= s.line && s.endColumn >= 1 && s.endOffset >= s.startOffset
    && !(s.endLine == s.line && s.endColumn < s.column)
  }

  /** The span of a node contains that of a child, where both have one. */
  predicate Contains(outer: Option<Span>, inner: Option<Span>) {
    outer.Some? && inner.Some? ==>
      outer.value.startOffset <= inner.value.startOffset && inner.value.endOffset <= outer.value.endOffset
  }

  predicate LocalOk(node: Node) { node.sound && (node.span.Some? ==> SpanOk(node.span.value)) }

  /** Child i of n is there, and within its parent's span. */
  predicate ChildOk(g: Graph, n: nat, i: nat)
    requires n < |g| && i < |g[n].children|
  {
    && g[n].children[i].Some? && g[n].children[i].value < |g|
    && Contains(g[n].span, g[g[n].children[i].value].span)
  }

  // ----- what an acceptable graph is -----

  ghost predicate IsWalk(g: Graph, root: nat, walk: seq<nat>) {
    && |walk| > 0 && walk[0] == root
    && (forall k | 0 <= k < |walk| :: walk[k] < |g|)
    && (forall k | 0 < k < |walk| :: Step(g, walk, k))
  }

  ghost predicate Step(g: Graph, walk: seq<nat>, k: nat) {
    0 < k < |walk| && walk[k - 1] < |g| && Some(walk[k]) in g[walk[k - 1]].children
  }

  ghost predicate Reachable(g: Graph, root: nat, n: nat) {
    exists walk :: IsWalk(g, root, walk) && walk[|walk| - 1] == n
  }

  /** Node n is sound, its children are there, inside it, all different, and point back to it. */
  ghost predicate NodeOk(g: Graph, n: nat)
    requires n < |g|
  {
    && LocalOk(g[n])
    && (forall i | 0 <= i < |g[n].children| :: ChildOk(g, n, i) && g[g[n].children[i].value].parent == Some(n))
    && (forall i, j | 0 <= i < j < |g[n].children| :: g[n].children[i] != g[n].children[j])
  }

  ghost predicate TreeOk(g: Graph, root: nat)
    requires root < |g|
  {
    && g[root].parent == None
    && forall n | 0 <= n < |g| && Reachable(g, root, n) :: NodeOk(g, n)
  }

  /** In such a graph there is only one way to each node: it is a tree. */
  lemma {:induction false} OneWay(g: Graph, root: nat, a: seq<nat>, b: seq<nat>)
    requires root < |g| && TreeOk(g, root) && IsWalk(g, root, a) && IsWalk(g, root, b) && a[|a| - 1] == b[|b| - 1]
    ensures a == b
    decreases |a|
  {
    if |a| > 1 { ParentOnWalk(g, root, a); }
    if |b| > 1 { ParentOnWalk(g, root, b); }
    if |a| > 1 {
      Shorter(g, root, a);
      Shorter(g, root, b);
      OneWay(g, root, a[..|a| - 1], b[..|b| - 1]);
      assert a == a[..|a| - 1] + [a[|a| - 1]] && b == b[..|b| - 1] + [b[|b| - 1]];
    }
  }

  /** The last node of a walk has the node before it as parent. */
  lemma {:induction false} ParentOnWalk(g: Graph, root: nat, walk: seq<nat>)
    requires root < |g| && TreeOk(g, root) && IsWalk(g, root, walk) && |walk| > 1
    ensures g[walk[|walk| - 1]].parent == Some(walk[|walk| - 2])
  {
    var n := walk[|walk| - 2];
    Shorter(g, root, walk);
    assert Reachable(g, root, n);
    assert Step(g, walk, |walk| - 1);
    assert NodeOk(g, n);
    var i :| 0 <= i < |g[n].children| && g[n].children[i] == Some(walk[|walk| - 1]);
    assert ChildOk(g, n, i);
  }

  lemma {:induction false} Shorter(g: Graph, root: nat, walk: seq<nat>)
    requires IsWalk(g, root, walk) && |walk| > 1
    ensures IsWalk(g, root, walk[..|walk| - 1])
  {
    var less := walk[..|walk| - 1];
    forall k | 0 < k < |less|
      ensures Step(g, less, k)
    {
      assert Step(g, walk, k);
    }
  }

  /** A tree has no cycle: no walk comes back to a node it has passed. */
  lemma {:induction false} NoReturn(g: Graph, root: nat, walk: seq<nat>, k: nat)
    requires root < |g| && TreeOk(g, root) && IsWalk(g, root, walk) && k < |walk| - 1
    ensures walk[k] != walk[|walk| - 1]
  {
    if walk[k] == walk[|walk| - 1] {
      Prefix(g, root, walk, k + 1);
      OneWay(g, root, walk[..k + 1], walk);
    }
  }

  lemma {:induction false} Prefix(g: Graph, root: nat, walk: seq<nat>, k: nat)
    requires IsWalk(g, root, walk) && 0 < k <= |walk|
    ensures IsWalk(g, root, walk[..k])
  {
    var less := walk[..k];
    forall j | 0 < j < |less|
      ensures Step(g, less, j)
    {
      assert Step(g, walk, j);
    }
  }

  // ----- the same in other words -----

  /** A span begins at line and column 1 or later, and does not end before it begins. */
  predicate Placed(s: Span) {
    && 1 <= s.line && 1 <= s.column && 1 <= s.endColumn && s.startOffset <= s.endOffset
    && (s.line < s.endLine || (s.line == s.endLine && s.column <= s.endColumn))
  }

  predicate Covers(s: Span, x: nat) { s.startOffset <= x <= s.endOffset }

  /** Every offset of the inner span is one of the outer. */
  ghost predicate Within(outer: Option<Span>, inner: Option<Span>) {
    outer.Some? && inner.Some? ==> forall x: nat | Covers(inner.value, x) :: Covers(outer.value, x)
  }

  ghost predicate Offspring(g: Graph, n: nat, child: Option<nat>)
    requires n < |g|
  {
    child.Some? && child.value < |g| && g[child.value].parent == Some(n) && Within(g[n].span, g[child.value].span)
  }

  ghost predicate ProperNode(g: Graph, n: nat)
    requires n < |g|
  {
    && g[n].sound && (g[n].span.Some? ==> Placed(g[n].span.value))
    && (forall i | 0 <= i < |g[n].children| :: Offspring(g, n, g[n].children[i]))
    && (forall i, j | 0 <= i < j < |g[n].children| :: g[n].children[i] != g[n].children[j])
  }

  /** From a root without parent one comes only to sound nodes with spans in order, whose children are there, point
      back, are all different, and lie within them. */
  ghost predicate Proper(g: Graph, root: nat)
    requires root < |g|
  {
    g[root].parent == None && forall n | 0 <= n < |g| && Reachable(g, root, n) :: ProperNode(g, n)
  }

  lemma {:induction false} ContainsIff(outer: Option<Span>, inner: Option<Span>)
    requires inner.Some? ==> inner.value.startOffset <= inner.value.endOffset
    ensures Contains(outer, inner) <==> Within(outer, inner)
  {
    if outer.Some? && inner.Some? {
      assert Covers(inner.value, inner.value.startOffset) && Covers(inner.value, inner.value.endOffset);
    }
  }

  lemma {:induction false} ChildReachable(g: Graph, root: nat, n: nat, i: nat)
    requires n < |g| && i < |g[n].children| && g[n].children[i].Some? && g[n].children[i].value < |g| && Reachable(g, root, n)
    ensures Reachable(g, root, g[n].children[i].value)
  {
    var walk :| IsWalk(g, root, walk) && walk[|walk| - 1] == n;
    var longer := walk + [g[n].children[i].value];
    forall k | 0 < k < |longer|
      ensures Step(g, longer, k)
    {
      if k < |walk| { assert Step(g, walk, k); }
    }
    assert IsWalk(g, root, longer);
  }

  lemma {:induction false} ProperIff(g: Graph, root: nat)
    requires root < |g|
    ensures TreeOk(g, root) <==> Proper(g, root)
  {
    if TreeOk(g, root) {
      forall n | 0 <= n < |g| && Reachable(g, root, n)
        ensures ProperNode(g, n)
      {
        assert NodeOk(g, n);
        forall i | 0 <= i < |g[n].children|
          ensures Offspring(g, n, g[n].children[i])
        {
          assert ChildOk(g, n, i);
          var m := g[n].children[i].value;
          ChildReachable(g, root, n, i);
          assert NodeOk(g, m);
          ContainsIff(g[n].span, g[m].span);
        }
      }
    }
    if Proper(g, root) {
      forall n | 0 <= n < |g| && Reachable(g, root, n)
        ensures NodeOk(g, n)
      {
        assert ProperNode(g, n);
        forall i | 0 <= i < |g[n].children|
          ensures ChildOk(g, n, i) && g[g[n].children[i].value].parent == Some(n)
        {
          assert Offspring(g, n, g[n].children[i]);
          var m := g[n].children[i].value;
          ChildReachable(g, root, n, i);
          assert ProperNode(g, m);
          ContainsIff(g[n].span, g[m].span);
        }
      }
    }
  }

  // ----- the traversal -----

  /** How a node has been met: as the root, or as a child of a visited node. */
  datatype Token = Root | Edge(parent: nat, index: nat)

  function TokenNode(g: Graph, root: nat, t: Token): nat {
    if t.Root? then root
    else if t.parent < |g| && t.index < |g[t.parent].children| && g[t.parent].children[t.index].Some?
    then g[t.parent].children[t.index].value else 0
  }

  function TokenParent(t: Token): Option<nat> { if t.Root? then None else Some(t.parent) }

  /** By which token each visited node has been met. */
  type Via = map<nat, Token>

  ghost predicate Pending(g: Graph, root: nat, via: Via, t: Token) {
    t.Edge? ==> t.parent in via && t.parent < |g| && t.index < |g[t.parent].children| && ChildOk(g, t.parent, t.index)
  }

  ghost predicate Met(g: Graph, root: nat, via: Via, n: nat)
    requires n in via
  {
    && n < |g| && TokenNode(g, root, via[n]) == n && g[n].parent == TokenParent(via[n]) && LocalOk(g[n])
    && Pending(g, root, via, via[n]) && Reachable(g, root, n)
    && forall i | 0 <= i < |g[n].children| :: ChildOk(g, n, i)
  }

  /** A token is waiting on the stack or has brought its node in. */
  ghost predicate Accounted(g: Graph, root: nat, via: Via, stack: seq<Token>, t: Token) {
    t in stack || (TokenNode(g, root, t) in via && via[TokenNode(g, root, t)] == t)
  }

  /** No token is on the stack twice. */
  ghost predicate NewAt(stack: seq<Token>, k: nat)
    requires k < |stack|
  {
    stack[k] !in stack[..k]
  }

  ghost predicate Traversal(g: Graph, root: nat, via: Via, stack: seq<Token>) {
    && root < |g|
    && (forall n | n in via :: Met(g, root, via, n))
    && (forall k | 0 <= k < |stack| :: Pending(g, root, via, stack[k]))
    && (forall k | 0 <= k < |stack| :: NewAt(stack, k))
    && (forall n | n in via :: via[n] !in stack)
    && Accounted(g, root, via, stack, Root)
    && (forall n, i | n in via && n < |g| && 0 <= i < |g[n].children| :: Accounted(g, root, via, stack, Edge(n, i)))
  }

  /** Where a token leads can be reached. */
  lemma {:induction false} TokenReachable(g: Graph, root: nat, via: Via, stack: seq<Token>, t: Token)
    requires Traversal(g, root, via, stack) && Pending(g, root, via, t)
    ensures TokenNode(g, root, t) < |g| && Reachable(g, root, TokenNode(g, root, t))
  {
    if t.Root? {
      assert IsWalk(g, root, [root]);
    } else {
      assert Met(g, root, via, t.parent);
      ChildReachable(g, root, t.parent, t.index);
    }
  }

  /** A node met a second time shows that the graph is no tree. */
  lemma {:induction false} MetTwice(g: Graph, root: nat, via: Via, stack: seq<Token>, t: Token)
    requires Traversal(g, root, via, stack) && t in stack && TokenNode(g, root, t) in via
    ensures !TreeOk(g, root)
  {
    var k :| 0 <= k < |stack| && stack[k] == t;
    assert Pending(g, root, via, stack[k]);
    var n := TokenNode(g, root, t);
    assert Met(g, root, via, n);
    var s := via[n];
    if t.Edge? {
      assert Met(g, root, via, t.parent);
      if s.Edge? && s.parent == t.parent { SameChildTwice(g, t.parent, s.index, t.index); }
      if TreeOk(g, root) { EdgeParent(g, root, via, stack, t); }
    }
  }

  lemma {:induction false} SameChildTwice(g: Graph, n: nat, i: nat, j: nat)
    requires n < |g| && i < |g[n].children| && j < |g[n].children| && i != j && g[n].children[i] == g[n].children[j]
    ensures !NodeOk(g, n)
  {
    var a, b := if i < j then i else j, if i < j then j else i;
    assert g[n].children[a] == g[n].children[b];
  }

  lemma {:induction false} EdgeParent(g: Graph, root: nat, via: Via, stack: seq<Token>, t: Token)
    requires Traversal(g, root, via, stack) && Pending(g, root, via, t) && t.Edge? && TreeOk(g, root)
    ensures TokenNode(g, root, t) < |g| && g[TokenNode(g, root, t)].parent == Some(t.parent)
  {
    assert Met(g, root, via, t.parent);
    assert NodeOk(g, t.parent);
    assert ChildOk(g, t.parent, t.index);
  }

  /** A popped token with a wrong parent link, too. */
  lemma {:induction false} WrongParent(g: Graph, root: nat, via: Via, stack: seq<Token>, t: Token)
    requires Traversal(g, root, via, stack) && t in stack
    requires TokenNode(g, root, t) < |g| && g[TokenNode(g, root, t)].parent != TokenParent(t)
    ensures !TreeOk(g, root)
  {
    var k :| 0 <= k < |stack| && stack[k] == t;
    assert Pending(g, root, via, stack[k]);
    if TreeOk(g, root) && t.Edge? { EdgeParent(g, root, via, stack, t); }
  }

  function Tokens(g: Graph, n: nat): seq<Token>
    requires n < |g|
  {
    seq(|g[n].children|, i requires 0 <= i < |g[n].children| => Edge(n, i))
  }

  /** Visiting the node of the top token. */
  lemma {:induction false} Visit(g: Graph, root: nat, via: Via, stack: seq<Token>)
    requires Traversal(g, root, via, stack) && stack != []
    requires var t := stack[|stack| - 1];
             var n := TokenNode(g, root, t);
             && n !in via && n < |g| && LocalOk(g[n]) && g[n].parent == TokenParent(t)
             && forall i | 0 <= i < |g[n].children| :: ChildOk(g, n, i)
    ensures var t := stack[|stack| - 1];
            var n := TokenNode(g, root, t);
            Traversal(g, root, via[n := t], stack[..|stack| - 1] + Tokens(g, n))
  {
    var t := stack[|stack| - 1];
    var n := TokenNode(g, root, t);
    var via', rest := via[n := t], stack[..|stack| - 1];
    var stack' := rest + Tokens(g, n);
    assert Pending(g, root, via, t);
    TokenReachable(g, root, via, stack, t);
    RestTokens(g, root, via, stack, n);
    VisitMet(g, root, via, n, t);
    VisitAccounts(g, root, via, stack, n, t);
    VisitPending(g, root, via, rest, n, t);
    VisitNew(g, rest, n);
    VisitDone(g, root, via, stack, n, t);
  }

  /** What is below the top of the stack. */
  lemma {:induction false} RestTokens(g: Graph, root: nat, via: Via, stack: seq<Token>, n: nat)
    requires Traversal(g, root, via, stack) && stack != [] && n !in via
    ensures var rest := stack[..|stack| - 1];
            && stack[|stack| - 1] !in rest
            && (forall k | 0 <= k < |rest| :: Pending(g, root, via, rest[k]) && NewAt(rest, k))
            && forall k | 0 <= k < |rest| :: rest[k].Edge? ==> rest[k].parent != n
  {
    var rest := stack[..|stack| - 1];
    assert NewAt(stack, |stack| - 1);
    forall k | 0 <= k < |rest|
      ensures Pending(g, root, via, rest[k]) && NewAt(rest, k) && (rest[k].Edge? ==> rest[k].parent != n)
    {
      RestToken(g, root, via, stack, n, k);
    }
  }

  lemma {:induction false} RestToken(g: Graph, root: nat, via: Via, stack: seq<Token>, n: nat, k: nat)
    requires k < |stack| - 1 && NewAt(stack, k) && Pending(g, root, via, stack[k]) && n !in via
    ensures var rest := stack[..|stack| - 1];
            Pending(g, root, via, rest[k]) && NewAt(rest, k) && (rest[k].Edge? ==> rest[k].parent != n)
  {
    assert stack[..|stack| - 1][..k] == stack[..k];
  }

  lemma {:induction false} VisitPending(g: Graph, root: nat, via: Via, rest: seq<Token>, n: nat, t: Token)
    requires n < |g| && n !in via && forall i | 0 <= i < |g[n].children| :: ChildOk(g, n, i)
    requires forall k | 0 <= k < |rest| :: Pending(g, root, via, rest[k])
    ensures forall k | 0 <= k < |rest + Tokens(g, n)| :: Pending(g, root, via[n := t], (rest + Tokens(g, n))[k])
  {
    var stack' := rest + Tokens(g, n);
    forall k | 0 <= k < |stack'|
      ensures Pending(g, root, via[n := t], stack'[k])
    {
      if k >= |rest| {
        assert stack'[k] == Edge(n, k - |rest|);
        assert ChildOk(g, n, k - |rest|);
      } else {
        assert stack'[k] == rest[k];
      }
    }
  }

  lemma {:induction false} VisitNew(g: Graph, rest: seq<Token>, n: nat)
    requires n < |g| && forall k | 0 <= k < |rest| :: NewAt(rest, k) && (rest[k].Edge? ==> rest[k].parent != n)
    ensures forall k | 0 <= k < |rest + Tokens(g, n)| :: NewAt(rest + Tokens(g, n), k)
  {
    var stack' := rest + Tokens(g, n);
    forall k | 0 <= k < |stack'|
      ensures NewAt(stack', k)
    {
      if k < |rest| {
        assert stack'[..k] == rest[..k] && NewAt(rest, k);
      } else {
        assert stack'[k] == Edge(n, k - |rest|);
        forall l | 0 <= l < k
          ensures stack'[l] != stack'[k]
        {
          if l < |rest| { assert stack'[l] == rest[l] && NewAt(rest, l); } else { assert stack'[l] == Edge(n, l - |rest|); }
        }
      }
    }
  }

  lemma {:induction false} VisitDone(g: Graph, root: nat, via: Via, stack: seq<Token>, n: nat, t: Token)
    requires Traversal(g, root, via, stack) && stack != [] && t == stack[|stack| - 1] && n < |g| && n !in via
    requires t !in stack[..|stack| - 1] && Pending(g, root, via, t)
    ensures var via' := via[n := t];
            forall m | m in via' :: via'[m] !in stack[..|stack| - 1] + Tokens(g, n)
  {
    var via', rest := via[n := t], stack[..|stack| - 1];
    forall m | m in via'
      ensures via'[m] !in rest + Tokens(g, n)
    {
      if m != n {
        assert via[m] !in stack && Met(g, root, via, m);
        assert forall x | x in rest :: x in stack;
      }
      assert forall x | x in Tokens(g, n) :: x.Edge? && x.parent == n;
    }
  }

  lemma {:induction false} VisitMet(g: Graph, root: nat, via: Via, n: nat, t: Token)
    requires forall m | m in via :: Met(g, root, via, m)
    requires n !in via && n < |g| && TokenNode(g, root, t) == n && g[n].parent == TokenParent(t) && LocalOk(g[n])
    requires Pending(g, root, via, t) && Reachable(g, root, n) && forall i | 0 <= i < |g[n].children| :: ChildOk(g, n, i)
    ensures var via' := via[n := t];
            forall m | m in via' :: Met(g, root, via', m)
  {
    var via' := via[n := t];
    forall m | m in via'
      ensures Met(g, root, via', m)
    {
      if m != n { assert Met(g, root, via, m); }
    }
  }

  lemma {:induction false} VisitAccounts(g: Graph, root: nat, via: Via, stack: seq<Token>, n: nat, t: Token)
    requires stack != [] && t == stack[|stack| - 1] && n == TokenNode(g, root, t) < |g| && n !in via
    requires Accounted(g, root, via, stack, Root)
    requires forall m, i | m in via && m < |g| && 0 <= i < |g[m].children| :: Accounted(g, root, via, stack, Edge(m, i))
    ensures var stack' := stack[..|stack| - 1] + Tokens(g, n);
            && Accounted(g, root, via[n := t], stack', Root)
            && forall m, i | m in via[n := t] && m < |g| && 0 <= i < |g[m].children| ::
                 Accounted(g, root, via[n := t], stack', Edge(m, i))
  {
    var via', stack' := via[n := t], stack[..|stack| - 1] + Tokens(g, n);
    StillAccounted(g, root, via, stack, n, t, Root);
    forall m, i | m in via' && m < |g| && 0 <= i < |g[m].children|
      ensures Accounted(g, root, via', stack', Edge(m, i))
    {
      if m == n {
        assert stack'[|stack| - 1 + i] == Edge(n, i);
      } else {
        StillAccounted(g, root, via, stack, n, t, Edge(m, i));
      }
    }
  }

  lemma {:induction false} StillAccounted(g: Graph, root: nat, via: Via, stack: seq<Token>, n: nat, t: Token, u: Token)
    requires stack != [] && t == stack[|stack| - 1] && n == TokenNode(g, root, t) < |g| && n !in via
    requires Accounted(g, root, via, stack, u)
    ensures Accounted(g, root, via[n := t], stack[..|stack| - 1] + Tokens(g, n), u)
  {
    var stack' := stack[..|stack| - 1] + Tokens(g, n);
    if u in stack && u != t {
      var k :| 0 <= k < |stack| && stack[k] == u;
      assert stack'[k] == u;
    }
  }

  /** With nothing left on the stack everything reachable has been met, and once. */
  lemma {:induction false} AllMet(g: Graph, root: nat, via: Via)
    requires Traversal(g, root, via, [])
    ensures TreeOk(g, root)
  {
    assert Accounted(g, root, via, [], Root);
    assert Met(g, root, via, root);
    forall n | 0 <= n < |g| && Reachable(g, root, n)
      ensures NodeOk(g, n)
    {
      var walk :| IsWalk(g, root, walk) && walk[|walk| - 1] == n;
      WalkMet(g, root, via, walk, |walk| - 1);
      MetIsOk(g, root, via, n);
    }
  }

  lemma {:induction false} MetIsOk(g: Graph, root: nat, via: Via, n: nat)
    requires Traversal(g, root, via, []) && n in via
    ensures n < |g| && NodeOk(g, n)
  {
    assert Met(g, root, via, n);
    forall i | 0 <= i < |g[n].children|
      ensures ChildOk(g, n, i) && g[n].children[i].value in via && via[g[n].children[i].value] == Edge(n, i)
      ensures g[g[n].children[i].value].parent == Some(n)
    {
      assert Accounted(g, root, via, [], Edge(n, i));
      assert ChildOk(g, n, i);
      assert Met(g, root, via, g[n].children[i].value);
    }
  }

  lemma {:induction false} WalkMet(g: Graph, root: nat, via: Via, walk: seq<nat>, k: nat)
    requires Traversal(g, root, via, []) && IsWalk(g, root, walk) && k < |walk|
    ensures walk[k] in via
    decreases k
  {
    if k == 0 {
      assert Accounted(g, root, via, [], Root);
    } else {
      WalkMet(g, root, via, walk, k - 1);
      assert Step(g, walk, k);
      var n := walk[k - 1];
      var i :| 0 <= i < |g[n].children| && g[n].children[i] == Some(walk[k]);
      assert Accounted(g, root, via, [], Edge(n, i));
    }
  }

  // ----- the validator -----

  datatype Entry = Entry(node: nat, expectedParent: Option<nat>)

  function EntryOf(g: Graph, root: nat, t: Token): Entry { Entry(TokenNode(g, root, t), TokenParent(t)) }

  /** A stack that doubles when it is full. */
  class EntryStack {
    var items: array<Entry>
    var length: nat

    ghost predicate Valid()
      reads this, items
    {
      length <= items.Length
    }

    ghost function Contents(): seq<Entry>
      reads this, items
      requires Valid()
    {
      items[..length]
    }

    constructor ()
      ensures Valid() && Contents() == [] && fresh(items)
    {
      items, length := new Entry[0], 0;
    }

    method Push(e: Entry)
      requires Valid()
      modifies this, items
      ensures Valid() && (items == old(items) || fresh(items))
      ensures Contents() == old(Contents()) + [e]
    {
      if length == items.Length {
        var larger := new Entry[if items.Length == 0 then 16 else items.Length * 2](_ => e);
        forall i | 0 <= i < length { larger[i] := items[i]; }
        assert larger[..length] == items[..length];
        items := larger;
      }
      items[length] := e;
      length := length + 1;
      assert items[..length] == items[..length - 1] + [e];
    }

    method Pop() returns (e: Entry)
      requires Valid() && length > 0
      modifies this
      ensures Valid() && items == old(items)
      ensures e == old(Contents())[|old(Contents())| - 1] && Contents() == old(Contents())[..|old(Contents())| - 1]
    {
      length := length - 1;
      e := items[length];
    }
  }

  function Entries(g: Graph, root: nat, stack: seq<Token>): seq<Entry> {
    seq(|stack|, k requires 0 <= k < |stack| => EntryOf(g, root, stack[k]))
  }

  /** Pushes the children of a node, up to the first that is missing or sticks out. */
  method PushChildren(g: Graph, n: nat, stack: EntryStack, ghost root: nat, ghost tokens: seq<Token>) returns (ok: bool)
    requires stack.Valid() && n < |g| && Closed(g) && stack.Contents() == Entries(g, root, tokens)
    modifies stack, stack.items
    ensures stack.Valid() && (stack.items == old(stack.items) || fresh(stack.items))
    ensures ok <==> forall i | 0 <= i < |g[n].children| :: ChildOk(g, n, i)
    ensures ok ==> stack.Contents() == Entries(g, root, tokens + Tokens(g, n))
  {
    assert tokens + Tokens(g, n)[..0] == tokens;
    for i := 0 to |g[n].children|
      invariant stack.Valid() && (stack.items == old(stack.items) || fresh(stack.items))
      invariant forall k | 0 <= k < i :: ChildOk(g, n, k)
      invariant stack.Contents() == Entries(g, root, tokens + Tokens(g, n)[..i])
    {
      var child := g[n].children[i];
      if child.None? {
        assert !ChildOk(g, n, i);
        return false;
      }
      if !Contains(g[n].span, g[child.value].span) {
        assert !ChildOk(g, n, i);
        return false;
      }
      stack.Push(Entry(child.value, Some(n)));
      assert tokens + Tokens(g, n)[..i + 1] == (tokens + Tokens(g, n)[..i]) + [Edge(n, i)];
    }
    assert Tokens(g, n)[..|g[n].children|] == Tokens(g, n);
    ok := true;
  }

  /** The checks on a node that has not been met before, and its children onto the stack. */
  method CheckNode(g: Graph, entry: Entry, stack: EntryStack, ghost root: nat, ghost via: Via, ghost tokens: seq<Token>)
      returns (ok: bool)
    requires stack.Valid() && Closed(g) && tokens != []
    requires Traversal(g, root, via, tokens) && entry == EntryOf(g, root, tokens[|tokens| - 1])
    requires entry.node < |g| && entry.node !in via && Reachable(g, root, entry.node)
    requires stack.Contents() == Entries(g, root, tokens[..|tokens| - 1])
    modifies stack, stack.items
    ensures stack.Valid() && (stack.items == old(stack.items) || fresh(stack.items))
    ensures !ok ==> !TreeOk(g, root)
    ensures ok ==>
              && Traversal(g, root, via[entry.node := tokens[|tokens| - 1]], tokens[..|tokens| - 1] + Tokens(g, entry.node))
              && stack.Contents() == Entries(g, root, tokens[..|tokens| - 1] + Tokens(g, entry.node))
  {
    var n := entry.node;
    if !LocalOk(g[n]) {
      assert !NodeOk(g, n);
      return false;
    }
    if g[n].parent != entry.expectedParent {
      WrongParent(g, root, via, tokens, tokens[|tokens| - 1]);
      return false;
    }
    ok := PushChildren(g, n, stack, root, tokens[..|tokens| - 1]);
    if ok { Visit(g, root, via, tokens); } else { assert !NodeOk(g, n); }
  }

  /** The stack and the set are sound and share nothing. */
  ghost predicate Apart(stack: EntryStack, visited: Pointers)
    reads stack, stack.items, visited, visited.slots
  {
    stack.Valid() && visited.Valid() && {stack, stack.items} !! {visited, visited.slots}
  }

  /** A node from the stack: met before, or checked, with its children onto the stack. */
  method VisitNode(g: Graph, entry: Entry, stack: EntryStack, visited: Pointers,
                   ghost root: nat, ghost via: Via, ghost tokens: seq<Token>)
      returns (ok: bool)
    requires Apart(stack, visited) && Closed(g) && tokens != []
    requires Traversal(g, root, via, tokens) && entry == EntryOf(g, root, tokens[|tokens| - 1])
    requires stack.Contents() == Entries(g, root, tokens[..|tokens| - 1]) && visited.Contents() == via.Keys
    modifies stack, stack.items, visited, visited.slots
    ensures Apart(stack, visited)
    ensures stack.items == old(stack.items) || fresh(stack.items)
    ensures visited.slots == old(visited.slots) || fresh(visited.slots)
    ensures !ok ==> !TreeOk(g, root)
    ensures ok ==>
              var t := tokens[|tokens| - 1];
              && entry.node < |g| && entry.node !in via
              && Traversal(g, root, via[entry.node := t], tokens[..|tokens| - 1] + Tokens(g, entry.node))
              && stack.Contents() == Entries(g, root, tokens[..|tokens| - 1] + Tokens(g, entry.node))
              && visited.Contents() == via[entry.node := t].Keys
  {
    ghost var t := tokens[|tokens| - 1];
    assert t in tokens && Pending(g, root, via, t);
    TokenReachable(g, root, via, tokens, t);
    var inserted := visited.Insert(entry.node);
    if !inserted {
      MetTwice(g, root, via, tokens, t);
      return false;
    }
    ok := CheckNode(g, entry, stack, root, via, tokens);
  }

  /** How far the traversal is: the nodes met, and the entries on the stack. */
  ghost predicate Underway(g: Graph, root: nat, stack: EntryStack, visited: Pointers, via: Via, tokens: seq<Token>)
    reads stack, stack.items, visited, visited.slots
  {
    && Apart(stack, visited) && Traversal(g, root, via, tokens)
    && stack.Contents() == Entries(g, root, tokens) && visited.Contents() == via.Keys
    && forall n | n in via :: n < |g|
  }

  lemma {:induction false} EntriesButLast(g: Graph, root: nat, tokens: seq<Token>)
    requires tokens != []
    ensures var n := |tokens| - 1;
            Entries(g, root, tokens)[..n] == Entries(g, root, tokens[..n]) && Entries(g, root, tokens)[n] == EntryOf(g, root, tokens[n])
  {
  }

  /** One turn of the loop. */
  method VisitNext(g: Graph, root: nat, stack: EntryStack, visited: Pointers, ghost via: Via, ghost tokens: seq<Token>)
      returns (ok: bool, ghost via': Via, ghost tokens': seq<Token>)
    requires Closed(g) && Underway(g, root, stack, visited, via, tokens) && stack.length > 0
    modifies stack, stack.items, visited, visited.slots
    ensures stack.items == old(stack.items) || fresh(stack.items)
    ensures visited.slots == old(visited.slots) || fresh(visited.slots)
    ensures !ok ==> !TreeOk(g, root)
    ensures ok ==> Underway(g, root, stack, visited, via', tokens') && |via| < |via'| <= |g|
  {
    assert stack.Contents() != [];
    EntriesButLast(g, root, tokens);
    var entry := stack.Pop();
    ok := VisitNode(g, entry, stack, visited, root, via, tokens);
    ghost var n, t := entry.node, tokens[|tokens| - 1];
    via', tokens' := via[n := t], tokens[..|tokens| - 1] + Tokens(g, n);
    if ok { KeysFit(via', |g|); }
  }

  /** Accepts exactly the proper trees. */
  method Validate(g: Graph, root: nat, hash: nat -> nat) returns (valid: bool)
    requires root < |g| && Closed(g)
    ensures valid <==> TreeOk(g, root)
    ensures valid <==> Proper(g, root)
  {
    ProperIff(g, root);
    var stack := new EntryStack();
    var visited := new Pointers(hash);
    ghost var via: Via := map[];
    ghost var tokens := [Root];
    stack.Push(Entry(root, None));
    assert Accounted(g, root, via, tokens, Root);
    while stack.length > 0
      invariant fresh(stack) && fresh(visited) && fresh(stack.items) && fresh(visited.slots)
      invariant Underway(g, root, stack, visited, via, tokens)
      decreases |g| - |via|
    {
      valid, via, tokens := VisitNext(g, root, stack, visited, via, tokens);
      if !valid { return; }
    }
    assert stack.Contents() == [] && tokens == [];
    AllMet(g, root, via);
    valid := true;
  }

  lemma {:induction false} KeysFit(via: Via, n: nat)
    requires forall k | k in via :: k < n
    ensures |via| <= n
    decreases n
  {
    if n == 0 {
      assert via == map[];
    } else if n - 1 in via {
      KeysFit(via - {n - 1}, n - 1);
      assert via == (via - {n - 1})[n - 1 := via[n - 1]];
    } else {
      KeysFit(via, n - 1);
    }
  }
}
