/** Broadcasting: read-only views that repeat elements, and element-wise operations over two broadcast arrays. */
module ArrayBroadcast {
  import opened Arithmetic
  import opened ArrayLayout
  import opened ArrayViews
  import opened ArrayOrder
  import opened Wrappers

  /** How many leading axes the target has and the source lacks. */
  function Missing(from: seq<nat>, to: seq<nat>): nat
    requires |from| <= |to|
  {
    |to| - |from|
  }

  /** A shape broadcasts to another if, aligned at the last axis, each dimension is one or the same. */
  predicate Broadcasts(from: seq<nat>, to: seq<nat>) {
    |from| <= |to| && forall i | 0 <= i < |from| :: AxisBroadcasts(from, to, i)
  }

  predicate AxisBroadcasts(from: seq<nat>, to: seq<nat>, i: nat)
    requires i < |from| <= |to|
  {
    from[i] == 1 || from[i] == to[i + Missing(from, to)]
  }

  // ----- broadcasting step by step -----

  /** One more axis in front. */
  predicate Prepends(from: seq<nat>, to: seq<nat>) { |to| == |from| + 1 && to[1..] == from }

  /** An axis of length one becomes one of any length. */
  predicate Stretches(from: seq<nat>, to: seq<nat>, axis: nat) {
    axis < |from| == |to| && from[axis] == 1 && to == from[axis := to[axis]]
  }

  ghost predicate Grows(from: seq<nat>, to: seq<nat>) { Prepends(from, to) || exists axis :: Stretches(from, to, axis) }

  ghost predicate Growth(from: seq<nat>, to: seq<nat>, shapes: seq<seq<nat>>) {
    && |shapes| > 0 && shapes[0] == from && shapes[|shapes| - 1] == to
    && forall i, j | 0 <= i < j < |shapes| && j == i + 1 :: Grows(shapes[i], shapes[j])
  }

  lemma {:induction false} GrowsOn(from: seq<nat>, mid: seq<nat>, to: seq<nat>)
    requires Broadcasts(from, mid) && Grows(mid, to)
    ensures Broadcasts(from, to)
  {
    forall i | 0 <= i < |from|
      ensures AxisBroadcasts(from, to, i)
    {
      assert AxisBroadcasts(from, mid, i);
      if Prepends(mid, to) {
        assert to[1..][i + Missing(from, mid)] == to[i + Missing(from, to)];
      }
    }
  }

  lemma {:induction false} GrowthBroadcasts(from: seq<nat>, to: seq<nat>, shapes: seq<seq<nat>>)
    requires Growth(from, to, shapes)
    ensures Broadcasts(from, to)
    decreases |shapes|
  {
    var n := |shapes| - 1;
    if n > 0 {
      assert Growth(from, shapes[n - 1], shapes[..n]);
      GrowthBroadcasts(from, shapes[n - 1], shapes[..n]);
      assert Grows(shapes[n - 1], shapes[n]);
      GrowsOn(from, shapes[n - 1], to);
    } else {
      assert forall i | 0 <= i < |from| :: AxisBroadcasts(from, to, i);
    }
  }

  lemma {:induction false} GrowthFrom(from: seq<nat>, mid: seq<nat>, to: seq<nat>, shapes: seq<seq<nat>>)
    requires Grows(from, mid) && Growth(mid, to, shapes)
    ensures Growth(from, to, [from] + shapes)
  {
  }

  /** Shapes that agree in front of axis k, if they have as many axes. */
  lemma {:induction false} BroadcastGrowth(from: seq<nat>, to: seq<nat>, k: nat) returns (shapes: seq<seq<nat>>)
    requires Broadcasts(from, to) && k <= |to| && (|from| < |to| ==> k == 0)
    requires |from| == |to| ==> forall i | 0 <= i < k :: from[i] == to[i]
    ensures Growth(from, to, shapes)
    decreases |to| - |from|, |to| - k
  {
    if |from| < |to| {
      var mid := [to[|to| - |from| - 1]] + from;
      assert Prepends(from, mid);
      forall i | 0 <= i < |mid|
        ensures AxisBroadcasts(mid, to, i)
      {
        if i > 0 { assert AxisBroadcasts(from, to, i - 1); }
      }
      shapes := BroadcastGrowth(mid, to, 0);
      GrowthFrom(from, mid, to, shapes);
      shapes := [from] + shapes;
    } else if k == |to| {
      assert from == to;
      shapes := [from];
    } else if from[k] == to[k] {
      shapes := BroadcastGrowth(from, to, k + 1);
    } else {
      assert AxisBroadcasts(from, to, k);
      var mid := from[k := to[k]];
      assert Stretches(from, mid, k);
      forall i | 0 <= i < |mid|
        ensures AxisBroadcasts(mid, to, i)
      {
        assert AxisBroadcasts(from, to, i);
      }
      shapes := BroadcastGrowth(mid, to, k + 1);
      GrowthFrom(from, mid, to, shapes);
      shapes := [from] + shapes;
    }
  }

  /** One shape broadcasts to another exactly if it grows into it. */
  lemma {:induction false} BroadcastsIff(from: seq<nat>, to: seq<nat>)
    ensures Broadcasts(from, to) <==> exists shapes :: Growth(from, to, shapes)
  {
    if Broadcasts(from, to) { var shapes := BroadcastGrowth(from, to, 0); }
    if shapes :| Growth(from, to, shapes) { GrowthBroadcasts(from, to, shapes); }
  }

  function BroadcastStride(from: seq<nat>, strides: seq<int>, to: seq<nat>, axis: nat): int
    requires |from| == |strides| && |from| <= |to| && axis < |to|
  {
    var missing := Missing(from, to);
    if axis < missing then 0 else if from[axis - missing] == to[axis] then strides[axis - missing] else 0
  }

  function BroadcastStrides(from: seq<nat>, strides: seq<int>, to: seq<nat>): (r: seq<int>)
    requires |from| == |strides| && |from| <= |to|
    ensures |r| == |to|
    ensures forall axis | 0 <= axis < |to| :: r[axis] == BroadcastStride(from, strides, to, axis)
  {
    seq(|to|, axis requires 0 <= axis < |to| => BroadcastStride(from, strides, to, axis))
  }

  /** The source element that stands for the target element at c. */
  function Repeated(from: seq<nat>, c: seq<nat>): (r: seq<nat>)
    requires |from| <= |c|
    ensures |r| == |from|
    ensures forall i | 0 <= i < |from| :: r[i] == if from[i] == 1 then 0 else c[i + |c| - |from|]
  {
    seq(|from|, i requires 0 <= i < |from| => if from[i] == 1 then 0 else c[i + |c| - |from|])
  }

  /** A shape that has not grown shows its own elements; new axes and stretched ones make no difference. */
  lemma {:induction false} RepeatedLaws(from: seq<nat>, c: seq<nat>, axis: nat, x: nat)
    requires |from| == |c|
    ensures InShape(from, c) ==> Repeated(from, c) == c
    ensures Repeated(from, [x] + c) == Repeated(from, c)
    ensures axis < |from| && from[axis] == 1 ==> Repeated(from, c[axis := x]) == Repeated(from, c)
  {
    if InShape(from, c) { assert forall i | 0 <= i < |from| :: Repeated(from, c)[i] == c[i]; }
    assert forall i | 0 <= i < |from| :: Repeated(from, [x] + c)[i] == Repeated(from, c)[i];
  }

  lemma {:induction false} RepeatedInShape(from: seq<nat>, to: seq<nat>, c: seq<nat>)
    requires Broadcasts(from, to) && InShape(to, c)
    ensures InShape(from, Repeated(from, c))
  {
    forall i | 0 <= i < |from|
      ensures Repeated(from, c)[i] < from[i]
    {
      assert AxisBroadcasts(from, to, i);
    }
  }

  lemma {:induction false} DotZeroStrides(c: seq<int>, s: seq<int>)
    requires |c| == |s| && forall i | 0 <= i < |s| :: s[i] == 0
    ensures Dot(c, s) == 0
    decreases |c|
  {
    if c != [] { DotZeroStrides(c[..|c| - 1], s[..|s| - 1]); }
  }

  lemma {:induction false} BroadcastPrefix(from: seq<nat>, strides: seq<int>, to: seq<nat>, c: seq<nat>)
    requires |from| == |strides| && 0 < |from| && Broadcasts(from, to) && InShape(to, c)
    ensures var n, m := |from| - 1, |to| - 1;
            && Broadcasts(from[..n], to[..m]) && InShape(to[..m], c[..m])
            && BroadcastStrides(from, strides, to)[..m] == BroadcastStrides(from[..n], strides[..n], to[..m])
            && Repeated(from, c)[..n] == Repeated(from[..n], c[..m])
  {
    var n, m := |from| - 1, |to| - 1;
    forall i | 0 <= i < n
      ensures AxisBroadcasts(from[..n], to[..m], i)
    {
      assert AxisBroadcasts(from, to, i);
    }
    forall axis | 0 <= axis < m
      ensures BroadcastStrides(from, strides, to)[axis] == BroadcastStride(from[..n], strides[..n], to[..m], axis)
    {
    }
  }

  lemma {:induction false} BroadcastDot(from: seq<nat>, strides: seq<int>, to: seq<nat>, c: seq<nat>)
    requires |from| == |strides| && Broadcasts(from, to) && InShape(to, c)
    ensures Dot(c, BroadcastStrides(from, strides, to)) == Dot(Repeated(from, c), strides)
    decreases |from|
  {
    if from == [] {
      DotZeroStrides(c, BroadcastStrides(from, strides, to));
    } else {
      var n, m := |from| - 1, |to| - 1;
      BroadcastPrefix(from, strides, to, c);
      BroadcastDot(from[..n], strides[..n], to[..m], c[..m]);
      BroadcastLast(from, strides, to, c);
    }
  }

  /** The share of the last axis. */
  lemma {:induction false} BroadcastLast(from: seq<nat>, strides: seq<int>, to: seq<nat>, c: seq<nat>)
    requires |from| == |strides| > 0 && Broadcasts(from, to) && InShape(to, c)
    ensures c[|to| - 1] * BroadcastStride(from, strides, to, |to| - 1) == Repeated(from, c)[|from| - 1] * strides[|from| - 1]
  {
    var n, m := |from| - 1, |to| - 1;
    assert AxisBroadcasts(from, to, n);
    assert c[m] < to[m];
    assert BroadcastStride(from, strides, to, m) == if from[n] == to[m] then strides[n] else 0;
    assert Repeated(from, c)[n] == if from[n] == 1 then 0 else c[m];
  }

  // ----- the view -----

  predicate BroadcastOf(a: Descriptor, to: seq<nat>, v: Descriptor) {
    && |a.shape| == |a.strides| && Broadcasts(a.shape, to) && SameBuffer(a, v) && v.readonly
    && v.shape == to && v.strides == BroadcastStrides(a.shape, a.strides, to) && v.offset == a.offset
  }

  /** Every element of the view is the source element that stands for it. */
  lemma {:induction false} BroadcastElements(a: Descriptor, to: seq<nat>, v: Descriptor, c: seq<nat>)
    requires BroadcastOf(a, to, v) && InShape(to, c)
    ensures InShape(a.shape, Repeated(a.shape, c)) && ElementOffset(v, c) == ElementOffset(a, Repeated(a.shape, c))
  {
    RepeatedInShape(a.shape, to, c);
    BroadcastDot(a.shape, a.strides, to, c);
  }

  lemma {:induction false} BroadcastStridesOk(a: Descriptor, to: seq<nat>, v: Descriptor)
    requires Valid(a) && BroadcastOf(a, to, v)
    ensures StridesOk(v)
  {
    forall axis | 0 <= axis < |to| && to[axis] > 1
      ensures Magnitude(v.strides[axis]) % v.alignment == 0
    {
      var missing := Missing(a.shape, to);
      assert v.strides[axis] == BroadcastStride(a.shape, a.strides, to, axis);
      if axis >= missing && a.shape[axis - missing] == to[axis] {
        assert Magnitude(a.strides[axis - missing]) % a.alignment == 0;
      } else {
        MultipleZero(v.alignment);
        MultipleIff(0, v.alignment);
      }
    }
  }

  lemma {:induction false} BroadcastIsValid(a: Descriptor, to: seq<nat>, v: Descriptor)
    requires Valid(a) && RealBuffer(a) && BroadcastOf(a, to, v) && PrefixesFit(to) && v.size == Product(to)
    ensures Valid(v)
  {
    BroadcastStridesOk(a, to, v);
    PositiveProduct(to);
    if AllPositive(to) {
      forall i | 0 <= i < |a.shape|
        ensures a.shape[i] > 0
      {
        assert AxisBroadcasts(a.shape, to, i);
      }
      PositiveProduct(a.shape);
      assert to[..|to|] == to;
      forall c | InShape(v.shape, c)
        ensures FromSource(a, v, c)
      {
        BroadcastElements(a, to, v, c);
      }
      ViewIsValid(a, v);
    }
  }

  /** A validated array broadcasts to every shape its own broadcasts to whose size is representable. */
  method BroadcastView(a: Descriptor, to: seq<Size>) returns (status: Status, v: Descriptor)
    requires RealBuffer(a)
    ensures status == Ok ==> Valid(a) && Valid(v) && BroadcastOf(a, to, v) && v.size == Product(to)
    ensures Valid(a) ==> (status == Ok <==> Broadcasts(a.shape, to) && PrefixesFit(to))
  {
    v := a;
    status := Validate(a);
    if status != Ok { return; }
    if |to| < |a.shape| { return Argument, v; }
    var strides: seq<Stride> := [];
    var missing := Missing(a.shape, to);
    for axis := 0 to |to|
      invariant |strides| == axis
      invariant forall k | 0 <= k < axis :: strides[k] == BroadcastStride(a.shape, a.strides, to, k)
      invariant forall i | 0 <= i < |a.shape| && i + missing < axis :: AxisBroadcasts(a.shape, to, i)
    {
      var stride: Stride := 0;
      if axis >= missing {
        var dimension := a.shape[axis - missing];
        if dimension != to[axis] && dimension != 1 {
          assert !AxisBroadcasts(a.shape, to, axis - missing);
          return Argument, v;
        }
        stride := if dimension == to[axis] then a.strides[axis - missing] else 0;
      }
      strides := strides + [stride];
    }
    assert strides == BroadcastStrides(a.shape, a.strides, to);
    var size;
    status, size := ShapeSize(to);
    if status != Ok { return; }
    v := a.(shape := to, strides := strides, size := size, readonly := true);
    BroadcastIsValid(a, to, v);
    status := Validate(v);
  }

  /** Finds the element without building the view. */
  method BroadcastOffset(a: Descriptor, c: seq<nat>, ghost to: seq<nat>) returns (offset: Size)
    requires Valid(a) && Broadcasts(a.shape, to) && InShape(to, c)
    ensures InShape(a.shape, Repeated(a.shape, c)) && offset == ElementOffset(a, Repeated(a.shape, c))
    ensures forall v | BroadcastOf(a, to, v) :: offset == ElementOffset(v, c)
  {
    RepeatedInShape(a.shape, to, c);
    ghost var s := Repeated(a.shape, c);
    ElementsInside(a, s);
    var position: int := a.offset;
    var missing := |c| - |a.shape|;
    for axis := 0 to |a.shape|
      invariant position == a.offset + Dot(s[..axis], a.strides[..axis])
      invariant 0 <= position <= SIZE_MAX
    {
      var coordinate := if a.shape[axis] == 1 then 0 else c[axis + missing];
      var delta: int := coordinate * Magnitude(a.strides[axis]);
      DotNext(s, a.strides, axis);
      position := if a.strides[axis] < 0 then position - delta else position + delta;
      PartWay(a, s, axis + 1);
    }
    assert s[..|s|] == s && a.strides[..|a.strides|] == a.strides;
    offset := position;
    forall v | BroadcastOf(a, to, v)
      ensures offset == ElementOffset(v, c)
    {
      BroadcastElements(a, to, v, c);
    }
  }

  // ----- element-wise operations -----

  function Dimension(shape: seq<nat>, axis: nat, n: nat): nat
    requires |shape| <= n && axis < n
  {
    if axis < n - |shape| then 1 else shape[axis - (n - |shape|)]
  }

  function Axes(left: seq<nat>, right: seq<nat>): nat { if |left| > |right| then |left| else |right| }

  predicate CommonTarget(left: seq<nat>, right: seq<nat>, to: seq<nat>) {
    |to| == Axes(left, right) && Broadcasts(left, to) && Broadcasts(right, to)
  }

  ghost predicate HaveCommonTarget(left: seq<nat>, right: seq<nat>) {
    exists to: seq<nat> :: CommonTarget(left, right, to)
  }

  lemma {:induction false} BroadcastsByAxis(from: seq<nat>, to: seq<nat>)
    requires |from| <= |to|
    ensures Broadcasts(from, to) <==>
              forall k | 0 <= k < |to| :: Dimension(from, k, |to|) == 1 || Dimension(from, k, |to|) == to[k]
  {
    if forall k | 0 <= k < |to| :: Dimension(from, k, |to|) == 1 || Dimension(from, k, |to|) == to[k] {
      forall i | 0 <= i < |from|
        ensures AxisBroadcasts(from, to, i)
      {
        var k := i + Missing(from, to);
        assert Dimension(from, k, |to|) == from[i];
      }
    }
    if Broadcasts(from, to) {
      forall k | 0 <= k < |to|
        ensures Dimension(from, k, |to|) == 1 || Dimension(from, k, |to|) == to[k]
      {
        if k >= |to| - |from| { assert AxisBroadcasts(from, to, k - (|to| - |from|)); }
      }
    }
  }

  /** Finds the smallest shape both broadcast to, and fails exactly if there is none with that many axes. */
  method CommonShape(left: seq<Size>, right: seq<Size>) returns (status: Status, shape: seq<Size>)
    ensures status == if HaveCommonTarget(left, right) then Ok else Argument
    ensures status == Ok ==> CommonTarget(left, right, shape)
    ensures status == Ok ==> forall to: seq<nat> | CommonTarget(left, right, to) :: Broadcasts(shape, to)
  {
    var n := Axes(left, right);
    shape := [];
    for axis := 0 to n
      invariant |shape| == axis
      invariant forall k | 0 <= k < axis :: CommonDimension(Dimension(left, k, n), Dimension(right, k, n), shape[k])
    {
      var a, b := Dimension(left, axis, n), Dimension(right, axis, n);
      if a != b && a != 1 && b != 1 {
        forall to: seq<nat>
          ensures !CommonTarget(left, right, to)
        {
          DifferentDimensions(left, right, axis, to);
        }
        return Argument, shape;
      }
      shape := shape + [if a == 1 then b else a];
    }
    status := Ok;
    BroadcastsByAxis(left, shape);
    BroadcastsByAxis(right, shape);
    ghost var target: seq<nat> := shape;
    assert CommonTarget(left, right, target);
    forall to: seq<nat> | CommonTarget(left, right, to)
      ensures Broadcasts(shape, to)
    {
      BroadcastsByAxis(left, to);
      BroadcastsByAxis(right, to);
      BroadcastsByAxis(shape, to);
    }
  }

  lemma {:induction false} DifferentDimensions(left: seq<nat>, right: seq<nat>, axis: nat, to: seq<nat>)
    requires axis < Axes(left, right)
    requires var n := Axes(left, right);
             var a, b := Dimension(left, axis, n), Dimension(right, axis, n);
             a != b && a != 1 && b != 1
    ensures !CommonTarget(left, right, to)
  {
    if CommonTarget(left, right, to) {
      BroadcastsByAxis(left, to);
      BroadcastsByAxis(right, to);
    }
  }

  predicate CommonDimension(a: nat, b: nat, d: nat) {
    (a == 1 || a == d) && (b == 1 || b == d) && (d == a || d == b)
  }

  /** Applies an operation to the elements that two arrays, broadcast to a shape, have at the same coordinates.
      `load` reads the element of a buffer that begins at an offset. */
  ghost function At<V, W>(left: Descriptor, right: Descriptor, loadLeft: Size -> V, loadRight: Size -> V,
                          op: (V, V) -> Option<W>, c: seq<nat>): Option<W>
    requires |left.shape| == |left.strides| && |right.shape| == |right.strides|
    requires |left.shape| <= |c| && |right.shape| <= |c|
    requires 0 <= ElementOffset(left, Repeated(left.shape, c)) <= SIZE_MAX
    requires 0 <= ElementOffset(right, Repeated(right.shape, c)) <= SIZE_MAX
  {
    op(loadLeft(ElementOffset(left, Repeated(left.shape, c))), loadRight(ElementOffset(right, Repeated(right.shape, c))))
  }

  predicate Operands(left: Descriptor, right: Descriptor, shape: seq<nat>) {
    Valid(left) && Valid(right) && Broadcasts(left.shape, shape) && Broadcasts(right.shape, shape)
  }

  lemma {:induction false} OperandsInside(left: Descriptor, right: Descriptor, shape: seq<nat>, c: seq<nat>)
    requires Operands(left, right, shape) && InShape(shape, c)
    ensures 0 <= ElementOffset(left, Repeated(left.shape, c)) <= SIZE_MAX
    ensures 0 <= ElementOffset(right, Repeated(right.shape, c)) <= SIZE_MAX
  {
    RepeatedInShape(left.shape, shape, c);
    RepeatedInShape(right.shape, shape, c);
    ElementsInside(left, Repeated(left.shape, c));
    ElementsInside(right, Repeated(right.shape, c));
  }

  /** The result of the operation at the coordinates of a row-major index. */
  ghost function Result<V, W>(left: Descriptor, right: Descriptor, shape: seq<nat>, loadLeft: Size -> V,
                              loadRight: Size -> V, op: (V, V) -> Option<W>, i: nat): Option<W>
    requires Operands(left, right, shape) && i < Product(shape)
  {
    RankOfLinear(shape, i);
    OperandsInside(left, right, shape, Linear(shape, i));
    At(left, right, loadLeft, loadRight, op, Linear(shape, i))
  }

  /** One element: reads both operands, combines them and moves the odometer on. */
  method Combine<V, W>(left: Descriptor, right: Descriptor, coordinates: array<Size>, shape: seq<Size>,
                       loadLeft: Size -> V, loadRight: Size -> V, op: (V, V) -> Option<W>, ghost index: nat)
      returns (value: Option<W>)
    requires Operands(left, right, shape) && index < Product(shape) && coordinates[..] == Linear(shape, index)
    modifies coordinates
    ensures value == Result(left, right, shape, loadLeft, loadRight, op, index)
    ensures coordinates[..] == Linear(shape, if value == None then index else index + 1)
  {
    RankOfLinear(shape, index);
    var a := BroadcastOffset(left, coordinates[..], shape);
    var b := BroadcastOffset(right, coordinates[..], shape);
    value := op(loadLeft(a), loadRight(b));
    if value == None { return; }
    PositiveProduct(shape);
    IncrementIsNext(shape, index);
    IncrementCoordinates(coordinates, shape);
  }

  /** Walks over the result in row-major order with the odometer; fails exactly if the operation fails for some
      element. */
  method ElementWise<V, W>(left: Descriptor, right: Descriptor, shape: seq<Size>, size: Size, loadLeft: Size -> V,
                           loadRight: Size -> V, op: (V, V) -> Option<W>) returns (r: Option<seq<W>>)
    requires Operands(left, right, shape) && size == Product(shape)
    ensures r.Some? ==> |r.value| == size
    ensures r.Some? ==>
              forall i | 0 <= i < size :: Result(left, right, shape, loadLeft, loadRight, op, i) == Some(r.value[i])
    ensures r == None <==> exists i :: 0 <= i < size && Result(left, right, shape, loadLeft, loadRight, op, i) == None
  {
    var values: seq<W> := [];
    var coordinates := new Size[|shape|](_ => 0);
    LinearZero(shape);
    assert coordinates[..] == Origin(|shape|);
    for index := 0 to size
      invariant coordinates[..] == Linear(shape, index) && |values| == index
      invariant Results(left, right, shape, loadLeft, loadRight, op, values)
    {
      var value := Combine(left, right, coordinates, shape, loadLeft, loadRight, op, index);
      if value == None { return None; }
      OneMoreResult(left, right, shape, loadLeft, loadRight, op, values, value.value);
      values := values + [value.value];
    }
    r := Some(values);
  }

  /** The values so far. */
  ghost predicate Results<V, W>(left: Descriptor, right: Descriptor, shape: seq<Size>, loadLeft: Size -> V,
                                loadRight: Size -> V, op: (V, V) -> Option<W>, values: seq<W>)
    requires Operands(left, right, shape) && |values| <= Product(shape)
  {
    forall i | 0 <= i < |values| :: Result(left, right, shape, loadLeft, loadRight, op, i) == Some(values[i])
  }

  lemma {:induction false} OneMoreResult<V, W>(
      left: Descriptor, right: Descriptor, shape: seq<Size>, loadLeft: Size -> V, loadRight: Size -> V,
      op: (V, V) -> Option<W>, values: seq<W>, value: W)
    requires Operands(left, right, shape) && |values| < Product(shape)
    requires Results(left, right, shape, loadLeft, loadRight, op, values)
    requires Result(left, right, shape, loadLeft, loadRight, op, |values|) == Some(value)
    ensures Results(left, right, shape, loadLeft, loadRight, op, values + [value])
  {
  }

  /** A new array of this shape can be described: its size, its bytes and its strides can be represented. */
  predicate Allocatable(shape: seq<nat>, itemsize: Positive) {
    PrefixesFit(shape) && Product(shape) * itemsize <= SIZE_MAX && RowsFit(shape, itemsize)
  }

  /** The size and strides of a new array, if they and its bytes can be represented. */
  method Allocate(shape: seq<Size>, itemsize: Positive) returns (status: Status, size: nat, strides: seq<Stride>)
    ensures status == Ok || status == Overflow
    ensures status == Ok ==> size == Product(shape) && PrefixesFit(shape) && size * itemsize <= SIZE_MAX
    ensures status == Ok ==> strides == RowStrides(shape, itemsize)
    ensures status == Ok <==> Allocatable(shape, itemsize)
  {
    strides := [];
    status, size := ShapeSize(shape);
    if status != Ok { return; }
    var (fits, bytes) := SizeMul(size, itemsize);
    if !fits { return Overflow, size, strides; }
    status, strides := MakeContiguousStrides(shape, itemsize);
  }

  /** For shapes without empty axes, the bytes and the strides decide. */
  lemma {:induction false} AllocatableIff(shape: seq<nat>, itemsize: Positive)
    requires AllPositive(shape)
    ensures Allocatable(shape, itemsize) <==>
              Product(shape) * itemsize <= SIZE_MAX && StridesFit(RowStrides(shape, itemsize))
  {
    PaddedPositive(shape);
    if Product(shape) * itemsize <= SIZE_MAX {
      ProductMonotone(1, itemsize, Product(shape));
      forall k | 0 <= k <= |shape|
        ensures Product(shape[..k]) <= SIZE_MAX
      {
        PrefixBelowProduct(shape, k);
      }
    }
  }

  /** The values of a binary operation: one for each coordinates of the common shape, in row-major order. */
  ghost predicate Computed<V, W>(left: Descriptor, right: Descriptor, shape: seq<nat>, loadLeft: Size -> V,
                                 loadRight: Size -> V, op: (V, V) -> Option<W>, values: seq<W>)
  {
    && Operands(left, right, shape) && |values| == Product(shape)
    && forall i | 0 <= i < Product(shape) ::
         Result(left, right, shape, loadLeft, loadRight, op, i) == Some(values[i])
  }

  /** The value stored at coordinates is that of the operands' elements broadcast to the same coordinates. */
  lemma {:induction false} ComputedAt<V, W>(left: Descriptor, right: Descriptor, shape: seq<nat>, loadLeft: Size -> V,
                                            loadRight: Size -> V, op: (V, V) -> Option<W>, values: seq<W>, c: seq<nat>)
    requires Computed(left, right, shape, loadLeft, loadRight, op, values) && InShape(shape, c)
    ensures 0 <= ElementOffset(left, Repeated(left.shape, c)) <= SIZE_MAX
    ensures 0 <= ElementOffset(right, Repeated(right.shape, c)) <= SIZE_MAX
    ensures Rank(shape, c) < |values|
    ensures op(loadLeft(ElementOffset(left, Repeated(left.shape, c))), loadRight(ElementOffset(right, Repeated(right.shape, c))))
         == Some(values[Rank(shape, c)])
  {
    OperandsInside(left, right, shape, c);
    RankBound(shape, c);
    LinearOfRank(shape, c);
    assert Result(left, right, shape, loadLeft, loadRight, op, Rank(shape, c)) == Some(values[Rank(shape, c)]);
  }

  /** No value at an index means that the operation has none for the operands' elements there. */
  lemma {:induction false} NoResultAt<V, W>(left: Descriptor, right: Descriptor, shape: seq<nat>, loadLeft: Size -> V,
                                            loadRight: Size -> V, op: (V, V) -> Option<W>, i: nat)
    requires Operands(left, right, shape) && i < Product(shape)
    ensures InShape(shape, Linear(shape, i))
    ensures 0 <= ElementOffset(left, Repeated(left.shape, Linear(shape, i))) <= SIZE_MAX
    ensures 0 <= ElementOffset(right, Repeated(right.shape, Linear(shape, i))) <= SIZE_MAX
    ensures Result(left, right, shape, loadLeft, loadRight, op, i) == None <==>
              op(loadLeft(ElementOffset(left, Repeated(left.shape, Linear(shape, i)))),
                 loadRight(ElementOffset(right, Repeated(right.shape, Linear(shape, i))))) == None
  {
    RankOfLinear(shape, i);
    OperandsInside(left, right, shape, Linear(shape, i));
  }

  /** A binary operation on two arrays. `status` is about their shapes; no values mean that the operation failed
      for some pair of elements. */
  method BinaryOperation<V, W>(left: Descriptor, right: Descriptor, itemsize: Positive, loadLeft: Size -> V,
                               loadRight: Size -> V, op: (V, V) -> Option<W>)
      returns (status: Status, shape: seq<Size>, values: Option<seq<W>>)
    ensures status == Ok ==> Operands(left, right, shape) && CommonTarget(left.shape, right.shape, shape)
    ensures status == Ok && values.Some? ==>
              Computed(left, right, shape, loadLeft, loadRight, op, values.value)
    ensures status == Ok && values == None ==>
              exists i :: 0 <= i < Product(shape)
                          && Result(left, right, shape, loadLeft, loadRight, op, i) == None
    ensures Valid(left) && Valid(right) ==>
              (status == Argument <==> !HaveCommonTarget(left.shape, right.shape))
    ensures Valid(left) && Valid(right) && HaveCommonTarget(left.shape, right.shape) ==>
              (status == Ok <==> Allocatable(shape, itemsize))
  {
    shape, values := [], None;
    status := Validate(left);
    if status != Ok { return; }
    status := Validate(right);
    if status != Ok { return; }
    status, shape := CommonShape(left.shape, right.shape);
    if status != Ok { return; }
    var size, strides;
    status, size, strides := Allocate(shape, itemsize);
    if status != Ok { return; }
    values := ElementWise(left, right, shape, size, loadLeft, loadRight, op);
  }
}
