/** The binary heap of the merge: one node per run, ordered by value and then by run, kept in an array by
    moving a hole up or down. */
module MergeHeap {
  import opened Floats

  datatype Node = Node(value: Double, run: nat)

  /** Finite numbers compare by their place on the number line. */
  predicate NodeBefore(a: Node, b: Node) {
    if Rank(a.value) < Rank(b.value) then true
    else if Rank(a.value) > Rank(b.value) then false
    else a.run < b.run
  }

  function Parent(i: nat): nat
    requires i > 0
  {
    (i - 1) / 2
  }

  predicate ParentOk(s: seq<Node>, i: nat)
    requires i < |s|
  {
    i > 0 ==> !NodeBefore(s[i], s[Parent(i)])
  }

  ghost predicate IsHeap(s: seq<Node>) { forall i | 0 <= i < |s| :: ParentOk(s, i) }

  /** The root is the first node. */
  lemma {:induction false} RootFirst(s: seq<Node>, i: nat)
    requires IsHeap(s) && i < |s|
    ensures !NodeBefore(s[i], s[0])
    decreases i
  {
    if i > 0 {
      RootFirst(s, Parent(i));
      assert ParentOk(s, i);
    }
  }

  // ----- a hole at position i, to be filled with `node` -----

  /** Children of the hole are not before its parent, so that the parent may move into the hole. */
  ghost predicate ChildrenOk(s: seq<Node>, i: nat) {
    forall j | 0 < j < |s| && Parent(j) == i && 0 < i < |s| :: !NodeBefore(s[j], s[Parent(i)])
  }

  /** With the node in the hole everything is in order except perhaps towards the hole's parent. */
  ghost predicate UpOk(s: seq<Node>, i: nat, node: Node) {
    i < |s| && ChildrenOk(s, i) && OkBut(s[i := node], i)
  }

  ghost predicate OkBut(s: seq<Node>, i: nat) { forall j | 0 <= j < |s| && j != i :: ParentOk(s, j) }

  ghost predicate OkAbove(s: seq<Node>, i: nat) {
    forall j | 0 <= j < |s| && (j == 0 || Parent(j) != i) :: ParentOk(s, j)
  }

  function SiftUp(s: seq<Node>, i: nat, node: Node): seq<Node>
    requires i < |s|
    decreases i
  {
    if i == 0 || !NodeBefore(node, s[Parent(i)]) then s[i := node]
    else SiftUp(s[i := s[Parent(i)]], Parent(i), node)
  }

  lemma {:induction false} UpStep(s: seq<Node>, i: nat, node: Node)
    requires UpOk(s, i, node) && i > 0 && NodeBefore(node, s[Parent(i)])
    ensures UpOk(s[i := s[Parent(i)]], Parent(i), node)
  {
    var p := Parent(i);
    var t := s[i := s[p]];
    var u := t[p := node];
    forall j | 0 <= j < |u| && j != p
      ensures ParentOk(u, j)
    {
      assert j != i ==> ParentOk(s[i := node], j);
      if j > 0 && Parent(j) == p && j != i { assert !NodeBefore(s[j], s[p]); }
    }
    forall j | 0 < j < |t| && Parent(j) == p && 0 < p
      ensures !NodeBefore(t[j], t[Parent(p)])
    {
      assert ParentOk(s[i := node], p);
      if j != i { assert ParentOk(s[i := node], j); }
    }
  }

  lemma {:induction false} SiftUpHeap(s: seq<Node>, i: nat, node: Node)
    requires UpOk(s, i, node)
    ensures |SiftUp(s, i, node)| == |s| && IsHeap(SiftUp(s, i, node))
    ensures multiset(SiftUp(s, i, node)) == multiset(s[i := node])
    decreases i
  {
    if i == 0 || !NodeBefore(node, s[Parent(i)]) {
      assert ParentOk(s[i := node], i);
    } else {
      UpStep(s, i, node);
      SiftUpHeap(s[i := s[Parent(i)]], Parent(i), node);
      HoleMoves(s, i, Parent(i), node);
    }
  }

  /** Moving an element into the hole and the node to where the element was changes no contents. */
  lemma {:induction false} HoleMoves(s: seq<Node>, i: nat, j: nat, node: Node)
    requires i < |s| && j < |s| && i != j
    ensures multiset(s[i := s[j]][j := node]) == multiset(s[i := node])
  {
    assert s[i := s[j]][j := node] == s[i := node][i := s[j]][j := node];
  }

  /** With the node in the hole everything is in order except perhaps towards the hole's children. */
  ghost predicate DownOk(s: seq<Node>, i: nat, node: Node) {
    i < |s| && ChildrenOk(s, i) && OkAbove(s[i := node], i)
  }

  function FirstChild(s: seq<Node>, i: nat): nat
    requires 2 * i + 1 < |s|
  {
    if 2 * i + 2 < |s| && NodeBefore(s[2 * i + 2], s[2 * i + 1]) then 2 * i + 2 else 2 * i + 1
  }

  function SiftDown(s: seq<Node>, i: nat, node: Node): seq<Node>
    requires i < |s|
    decreases |s| - i
  {
    if 2 * i + 1 >= |s| || !NodeBefore(s[FirstChild(s, i)], node) then s[i := node]
    else SiftDown(s[i := s[FirstChild(s, i)]], FirstChild(s, i), node)
  }

  lemma {:induction false} DownStep(s: seq<Node>, i: nat, node: Node)
    requires DownOk(s, i, node) && 2 * i + 1 < |s| && NodeBefore(s[FirstChild(s, i)], node)
    ensures DownOk(s[i := s[FirstChild(s, i)]], FirstChild(s, i), node)
  {
    var c := FirstChild(s, i);
    var t := s[i := s[c]];
    var u := t[c := node];
    assert Parent(c) == i;
    forall j | 0 <= j < |u| && (j == 0 || Parent(j) != c)
      ensures ParentOk(u, j)
    {
      if j == 0 || Parent(j) != i { assert ParentOk(s[i := node], j); }
      if j == i && i > 0 { assert !NodeBefore(s[c], s[Parent(i)]); }
    }
    forall j | 0 < j < |t| && Parent(j) == c
      ensures !NodeBefore(t[j], t[i])
    {
      assert ParentOk(s[i := node], j);
    }
  }

  /** The node stays where no child is before it. */
  lemma {:induction false} DownFits(s: seq<Node>, i: nat, node: Node)
    requires DownOk(s, i, node) && (2 * i + 1 >= |s| || !NodeBefore(s[FirstChild(s, i)], node))
    ensures IsHeap(s[i := node])
  {
    var t := s[i := node];
    forall j | 0 <= j < |t|
      ensures ParentOk(t, j)
    {
      if j > 0 && Parent(j) == i {
        assert j == 2 * i + 1 || j == 2 * i + 2;
        assert !NodeBefore(s[j], s[FirstChild(s, i)]);
      }
    }
  }

  lemma {:induction false} SiftDownHeap(s: seq<Node>, i: nat, node: Node)
    requires DownOk(s, i, node)
    ensures |SiftDown(s, i, node)| == |s| && IsHeap(SiftDown(s, i, node))
    ensures multiset(SiftDown(s, i, node)) == multiset(s[i := node])
    decreases |s| - i
  {
    if 2 * i + 1 >= |s| || !NodeBefore(s[FirstChild(s, i)], node) {
      DownFits(s, i, node);
    } else {
      var c := FirstChild(s, i);
      DownStep(s, i, node);
      SiftDownHeap(s[i := s[c]], c, node);
      HoleMoves(s, i, c, node);
    }
  }

  // ----- the two operations -----

  method Push(heap: array<Node>, length: nat, node: Node) returns (length': nat)
    requires length < heap.Length && IsHeap(heap[..length])
    modifies heap
    ensures length' == length + 1 && IsHeap(heap[..length'])
    ensures multiset(heap[..length']) == multiset(old(heap[..length])) + multiset{node}
  {
    ghost var was := heap[..length];
    length' := length + 1;
    var i: nat := length;
    ghost var s := was + [heap[length]];
    assert heap[..length'] == s;
    PushStart(was, heap[length], node);
    SiftUpHeap(s, length, node);
    assert s[length := node] == was + [node];
    while i > 0 && NodeBefore(node, heap[Parent(i)])
      invariant i < length' <= heap.Length
      invariant SiftUp(heap[..length'], i, node) == SiftUp(s, length, node)
    {
      heap[i] := heap[Parent(i)];
      i := Parent(i);
    }
    heap[i] := node;
    assert heap[..length'] == SiftUp(s, length, node);
  }

  lemma {:induction false} PushStart(s: seq<Node>, last: Node, node: Node)
    requires IsHeap(s)
    ensures UpOk(s + [last], |s|, node)
  {
    var t := s + [last];
    var u := t[|s| := node];
    forall j | 0 <= j < |t| && j != |s|
      ensures ParentOk(u, j)
    {
      assert ParentOk(s, j);
    }
  }

  method Pop(heap: array<Node>, length: nat) returns (top: Node, length': nat)
    requires 0 < length <= heap.Length && IsHeap(heap[..length])
    modifies heap
    ensures length' == length - 1 && IsHeap(heap[..length'])
    ensures top in multiset(old(heap[..length]))
    ensures multiset(heap[..length']) == multiset(old(heap[..length])) - multiset{top}
    ensures forall n | n in old(heap[..length]) :: !NodeBefore(n, top)
  {
    ghost var was := heap[..length];
    length' := length - 1;
    top := heap[0];
    var tail := heap[length'];
    PopLeaves(was);
    if length' > 0 {
      assert heap[..length'] == was[..length'];
      Sink(heap, length', tail);
    }
    assert heap[..length'] == Popped(was);
  }

  /** What taking the first node leaves. */
  function Popped(s: seq<Node>): seq<Node>
    requires s != []
  {
    var n := |s| - 1;
    if n == 0 then [] else SiftDown(s[..n], 0, s[n])
  }

  lemma {:induction false} PopLeaves(s: seq<Node>)
    requires IsHeap(s) && s != []
    ensures s[0] in multiset(s) && forall n | n in s :: !NodeBefore(n, s[0])
    ensures IsHeap(Popped(s)) && multiset(Popped(s)) == multiset(s) - multiset{s[0]}
  {
    var n := |s| - 1;
    PopFirst(s);
    if n > 0 {
      PopStart(s, s[n]);
      SiftDownHeap(s[..n], 0, s[n]);
      PopContents(s);
    } else {
      assert s == [s[0]];
    }
  }

  /** The hole at the root moves down until the node fits. */
  method Sink(heap: array<Node>, length: nat, node: Node)
    requires 0 < length <= heap.Length
    modifies heap
    ensures heap[..length] == SiftDown(old(heap[..length]), 0, node)
  {
    ghost var s := heap[..length];
    var i: nat := 0;
    while 2 * i + 1 < length && NodeBefore(heap[FirstChild(heap[..length], i)], node)
      invariant i < length
      invariant SiftDown(heap[..length], i, node) == SiftDown(s, 0, node)
      decreases length - i
    {
      var left, right := 2 * i + 1, 2 * i + 2;
      var child := if right < length && NodeBefore(heap[right], heap[left]) then right else left;
      heap[i] := heap[child];
      i := child;
    }
    heap[i] := node;
  }

  lemma {:induction false} PopFirst(s: seq<Node>)
    requires IsHeap(s) && s != []
    ensures forall n | n in s :: !NodeBefore(n, s[0])
  {
    forall n | n in s
      ensures !NodeBefore(n, s[0])
    {
      var i :| 0 <= i < |s| && s[i] == n;
      RootFirst(s, i);
    }
  }

  lemma {:induction false} PopStart(s: seq<Node>, tail: Node)
    requires IsHeap(s) && |s| > 1
    ensures DownOk(s[..|s| - 1], 0, tail)
  {
    var t := s[..|s| - 1];
    var u := t[0 := tail];
    forall j | 0 <= j < |t| && (j == 0 || Parent(j) != 0)
      ensures ParentOk(u, j)
    {
      assert ParentOk(s, j);
      assert j > 0 ==> u[j] == s[j] && u[Parent(j)] == s[Parent(j)];
    }
  }

  lemma {:induction false} PopContents(s: seq<Node>)
    requires |s| > 1
    ensures multiset(s[..|s| - 1][0 := s[|s| - 1]]) == multiset(s) - multiset{s[0]}
  {
    var n := |s| - 1;
    assert s == [s[0]] + s[1..n] + [s[n]];
    assert s[..n][0 := s[n]] == [s[n]] + s[1..n];
  }
}
