/** The row-major order of elements: linear indices, the odometer that counts through coordinates, contiguous
    arrays and reshaped views. */
module ArrayOrder {
  import opened Arithmetic
  import opened ArrayLayout
  import opened ArrayViews

  // ----- linear indices and coordinates -----

  /** The coordinates of the element with a row-major index. */
  function Linear(shape: seq<nat>, index: nat): (c: seq<nat>)
    ensures |c| == |shape|
  {
    if shape == [] then []
    else
      var n := |shape| - 1;
      if shape[n] == 0 then Linear(shape[..n], index) + [0]
      else Linear(shape[..n], index / shape[n]) + [index % shape[n]]
  }

  /** The row-major index of coordinates. */
  function Rank(shape: seq<nat>, c: seq<nat>): nat
    requires |c| == |shape|
  {
    if shape == [] then 0
    else
      var n := |shape| - 1;
      ProductNonNegative(Rank(shape[..n], c[..n]), shape[n]);
      Rank(shape[..n], c[..n]) * shape[n] + c[n]
  }

  lemma {:induction false} LinearInShape(shape: seq<nat>, index: nat)
    requires AllPositive(shape)
    ensures InShape(shape, Linear(shape, index))
    decreases |shape|
  {
    if shape != [] {
      var n := |shape| - 1;
      LinearInShape(shape[..n], index / shape[n]);
      var rest := Linear(shape[..n], index / shape[n]);
      forall i | 0 <= i < |shape|
        ensures Linear(shape, index)[i] < shape[i]
      {
        if i < n { assert rest[i] < shape[..n][i]; }
      }
    }
  }

  lemma {:induction false} RankBound(shape: seq<nat>, c: seq<nat>)
    requires InShape(shape, c)
    ensures Rank(shape, c) < Product(shape)
    decreases |shape|
  {
    if shape != [] {
      var n := |shape| - 1;
      RankBound(shape[..n], c[..n]);
      ProductMonotone(Rank(shape[..n], c[..n]) + 1, Product(shape[..n]), shape[n]);
      Distribute(Rank(shape[..n], c[..n]), 1, shape[n]);
    }
  }

  /** Indices and coordinates correspond one to one. */
  lemma {:induction false} RankOfLinear(shape: seq<nat>, index: nat)
    requires index < Product(shape)
    ensures InShape(shape, Linear(shape, index)) && Rank(shape, Linear(shape, index)) == index
    decreases |shape|
  {
    PositiveProduct(shape);
    LinearInShape(shape, index);
    if shape != [] {
      var n := |shape| - 1;
      var q := index / shape[n];
      QuotientBound(index, shape[n], Product(shape[..n]));
      RankOfLinear(shape[..n], q);
      assert Linear(shape, index)[..n] == Linear(shape[..n], q);
    }
  }

  lemma {:induction false} LinearOfRank(shape: seq<nat>, c: seq<nat>)
    requires InShape(shape, c)
    ensures Linear(shape, Rank(shape, c)) == c
    decreases |shape|
  {
    if shape != [] {
      var n := |shape| - 1;
      LinearOfRank(shape[..n], c[..n]);
      QuotientUnique(Rank(shape, c), Rank(shape[..n], c[..n]), c[n], shape[n]);
      assert c == c[..n] + [c[n]];
    }
  }

  /** Divides the index by one dimension after another, from the last. */
  method LinearCoordinates(shape: seq<Size>, index: Size, coordinates: array<Size>)
    requires coordinates.Length == |shape|
    modifies coordinates
    ensures coordinates[..] == Linear(shape, index)
  {
    var axis, rest: nat := |shape|, index;
    assert shape[..axis] == shape;
    while axis > 0
      invariant axis <= |shape| && rest <= SIZE_MAX
      invariant Linear(shape, index) == Linear(shape[..axis], rest) + coordinates[axis..]
    {
      var current := axis - 1;
      var dimension := shape[current];
      assert shape[..axis][..current] == shape[..current];
      ghost var done := coordinates[axis..];
      coordinates[current] := if dimension == 0 then 0 else rest % dimension;
      assert coordinates[current..] == [coordinates[current]] + done;
      if dimension != 0 {
        QuotientBound(rest, dimension, 0);
        QuotientBound(rest, dimension, rest / dimension);
        ProductMonotone(1, dimension, rest / dimension);
        rest := rest / dimension;
      }
      axis := current;
    }
  }

  // ----- the odometer -----

  /** Coordinates that are smaller at the first axis where they differ. */
  ghost predicate ComesBefore(c: seq<nat>, d: seq<nat>) { exists k :: DiffersAt(c, d, k) }

  predicate DiffersAt(c: seq<nat>, d: seq<nat>, k: nat) { k < |c| && k < |d| && c[..k] == d[..k] && c[k] < d[k] }

  /** Row-major order: the last axis runs fastest. */
  lemma {:induction false} RankIsLexicographic(shape: seq<nat>, c: seq<nat>, d: seq<nat>)
    requires InShape(shape, c) && InShape(shape, d)
    ensures Rank(shape, c) < Rank(shape, d) <==> ComesBefore(c, d)
    decreases |shape|
  {
    if ComesBefore(c, d) { BeforeIsLess(shape, c, d); }
    if ComesBefore(d, c) { BeforeIsLess(shape, d, c); }
    if c != d { OneComesFirst(c, d); }
  }

  lemma {:induction false} BeforeIsLess(shape: seq<nat>, c: seq<nat>, d: seq<nat>)
    requires InShape(shape, c) && InShape(shape, d) && ComesBefore(c, d)
    ensures Rank(shape, c) < Rank(shape, d)
    decreases |shape|
  {
    var k: nat :| DiffersAt(c, d, k);
    var n := |shape| - 1;
    if k < n {
      assert c[..n][..k] == c[..k] && d[..n][..k] == d[..k];
      assert DiffersAt(c[..n], d[..n], k);
      BeforeIsLess(shape[..n], c[..n], d[..n]);
      var x, y := Rank(shape[..n], c[..n]), Rank(shape[..n], d[..n]);
      ProductMonotone(x + 1, y, shape[n]);
      Distribute(x, 1, shape[n]);
    }
  }

  lemma {:induction false} OneComesFirst(c: seq<nat>, d: seq<nat>)
    requires |c| == |d| && c != d
    ensures ComesBefore(c, d) || ComesBefore(d, c)
    decreases |c|
  {
    var n := |c| - 1;
    if c[..n] == d[..n] {
      assert c == c[..n] + [c[n]] && d == d[..n] + [d[n]];
      assert DiffersAt(c, d, n) || DiffersAt(d, c, n);
    } else {
      OneComesFirst(c[..n], d[..n]);
      if k: nat :| DiffersAt(c[..n], d[..n], k) {
        assert c[..n][..k] == c[..k] && d[..n][..k] == d[..k];
        assert DiffersAt(c, d, k);
      }
      if k: nat :| DiffersAt(d[..n], c[..n], k) {
        assert c[..n][..k] == c[..k] && d[..n][..k] == d[..k];
        assert DiffersAt(d, c, k);
      }
    }
  }

  /** The next coordinates: the last axis counts fastest, and an axis that is full goes back to zero. */
  function Increment(shape: seq<nat>, c: seq<nat>): (r: seq<nat>)
    requires |c| == |shape|
    ensures |r| == |c|
  {
    if shape == [] then []
    else
      var n := |shape| - 1;
      if c[n] + 1 < shape[n] then c[..n] + [c[n] + 1] else Increment(shape[..n], c[..n]) + [0]
  }

  /** Incrementing coordinates is adding one to the index, also where it wraps around. */
  lemma {:induction false} IncrementIsNext(shape: seq<nat>, index: nat)
    requires AllPositive(shape)
    ensures Increment(shape, Linear(shape, index)) == Linear(shape, index + 1)
    decreases |shape|
  {
    if shape != [] {
      var n := |shape| - 1;
      NextQuotient(index, shape[n]);
      assert Linear(shape, index)[..n] == Linear(shape[..n], index / shape[n]);
      IncrementIsNext(shape[..n], index / shape[n]);
    }
  }

  function Origin(n: nat): (r: seq<nat>)
    ensures |r| == n && forall i | 0 <= i < n :: r[i] == 0
  {
    seq(n, _ => 0)
  }

  function Odometer(shape: seq<nat>, ticks: nat): (r: seq<nat>)
    ensures |r| == |shape|
  {
    if ticks == 0 then Origin(|shape|) else Increment(shape, Odometer(shape, ticks - 1))
  }

  lemma {:induction false} LinearZero(shape: seq<nat>)
    ensures Linear(shape, 0) == Origin(|shape|)
    decreases |shape|
  {
    if shape != [] {
      var n := |shape| - 1;
      LinearZero(shape[..n]);
      if shape[n] > 0 { QuotientUnique(0, 0, 0, shape[n]); }
    }
  }

  /** After i ticks from the origin the odometer shows the coordinates of index i. */
  lemma {:induction false} OdometerIsLinear(shape: seq<nat>, ticks: nat)
    requires AllPositive(shape)
    ensures Odometer(shape, ticks) == Linear(shape, ticks)
    decreases ticks
  {
    if ticks == 0 {
      LinearZero(shape);
    } else {
      OdometerIsLinear(shape, ticks - 1);
      IncrementIsNext(shape, ticks - 1);
    }
  }

  method IncrementCoordinates(coordinates: array<Size>, shape: seq<Size>)
    requires InShape(shape, coordinates[..])
    modifies coordinates
    ensures coordinates[..] == Increment(shape, old(coordinates[..]))
    ensures InShape(shape, coordinates[..])
  {
    ghost var was: seq<nat> := coordinates[..];
    var axis := |shape|;
    assert shape[..axis] == shape && was[..axis] == was;
    while axis > 0
      invariant axis <= |shape|
      invariant coordinates[..axis] == was[..axis] && InShape(shape, coordinates[..])
      invariant Increment(shape, was) == Increment(shape[..axis], was[..axis]) + coordinates[axis..]
    {
      var current := axis - 1;
      assert shape[..axis][..current] == shape[..current] && was[..axis][..current] == was[..current];
      ghost var done := coordinates[axis..];
      assert coordinates[..axis][current] == was[current];
      var next: nat := coordinates[current] + 1;
      coordinates[current] := if next < shape[current] then next else 0;
      assert coordinates[..] == was[..current] + [coordinates[current]] + done;
      if next < shape[current] { return; }
      axis := current;
    }
  }

  // ----- contiguous arrays -----

  /** Going from the last axis, each stride is the unit times the dimensions after it; axes of one element
      may have any. */
  predicate Contiguous(shape: seq<nat>, strides: seq<int>, unit: nat)
    requires |shape| == |strides|
  {
    if shape == [] then true
    else
      var n := |shape| - 1;
      ProductNonNegative(unit, shape[n]);
      (shape[n] > 1 ==> strides[n] == unit) && Contiguous(shape[..n], strides[..n], unit * shape[n])
  }

  lemma {:induction false} ContiguousDot(shape: seq<nat>, strides: seq<int>, unit: nat, c: seq<nat>)
    requires |shape| == |strides| && InShape(shape, c) && Contiguous(shape, strides, unit)
    ensures Dot(c, strides) == Rank(shape, c) * unit
    decreases |shape|
  {
    if shape != [] {
      var n := |shape| - 1;
      var r := Rank(shape[..n], c[..n]);
      ProductNonNegative(unit, shape[n]);
      ContiguousDot(shape[..n], strides[..n], unit * shape[n], c[..n]);
      Associate(r, shape[n], unit);
      Distribute(r * shape[n], c[n], unit);
    }
  }

  predicate InOrder(shape: seq<nat>, strides: seq<int>, unit: nat, c: seq<nat>)
    requires |shape| == |strides| == |c|
  {
    Dot(c, strides) == Rank(shape, c) * unit
  }

  lemma {:induction false} OriginDot(shape: seq<nat>, strides: seq<int>)
    requires |shape| == |strides|
    ensures Dot(Origin(|shape|), strides) == 0 && Rank(shape, Origin(|shape|)) == 0
    decreases |shape|
  {
    if shape != [] {
      var n := |shape| - 1;
      OriginDot(shape[..n], strides[..n]);
      assert Origin(|shape|)[..n] == Origin(n);
    }
  }

  lemma {:induction false} InOrderPrefix(shape: seq<nat>, strides: seq<int>, unit: nat, c: seq<nat>)
    requires 0 < |shape| == |strides| == |c| + 1 && InOrder(shape, strides, unit, c + [0])
    ensures unit * shape[|c|] >= 0 && InOrder(shape[..|c|], strides[..|c|], unit * shape[|c|], c)
  {
    var n := |c|;
    assert (c + [0])[..n] == c;
    ProductNonNegative(unit, shape[n]);
    Associate(Rank(shape[..n], c), shape[n], unit);
  }

  /** Only contiguous arrays have all their elements in row-major order, one unit apart. */
  lemma {:induction false} InOrderIsContiguous(shape: seq<nat>, strides: seq<int>, unit: nat)
    requires |shape| == |strides| && AllPositive(shape)
    requires forall c | InShape(shape, c) :: InOrder(shape, strides, unit, c)
    ensures Contiguous(shape, strides, unit)
    decreases |shape|
  {
    if shape != [] {
      var n := |shape| - 1;
      ProductNonNegative(unit, shape[n]);
      forall c | InShape(shape[..n], c)
        ensures InOrder(shape[..n], strides[..n], unit * shape[n], c)
      {
        assert InShape(shape, c + [0]) by { Extended(shape, c, 0); }
        InOrderPrefix(shape, strides, unit, c);
      }
      InOrderIsContiguous(shape[..n], strides[..n], unit * shape[n]);
      if shape[n] > 1 {
        var second := Origin(n) + [1];
        Extended(shape, Origin(n), 1);
        assert InOrder(shape, strides, unit, second);
        assert second[..n] == Origin(n);
        OriginDot(shape[..n], strides[..n]);
      }
    }
  }

  lemma {:induction false} Extended(shape: seq<nat>, c: seq<nat>, last: nat)
    requires |shape| == |c| + 1 && InShape(shape[..|c|], c) && last < shape[|c|]
    ensures InShape(shape, c + [last])
  {
    var n := |c|;
    forall i | 0 <= i < |shape|
      ensures (c + [last])[i] < shape[i]
    {
      if i < n { assert c[i] < shape[..n][i]; }
    }
  }

  /** The i-th element of a contiguous array in row-major order is i item sizes after the first. */
  lemma {:induction false} ContiguousElements(a: Descriptor, i: nat)
    requires |a.shape| == |a.strides| && Contiguous(a.shape, a.strides, a.itemsize) && i < Product(a.shape)
    ensures InShape(a.shape, Linear(a.shape, i))
    ensures ElementOffset(a, Linear(a.shape, i)) == a.offset + i * a.itemsize
  {
    RankOfLinear(a.shape, i);
    ContiguousDot(a.shape, a.strides, a.itemsize, Linear(a.shape, i));
  }

  lemma {:induction false} ContiguousReach(shape: seq<nat>, strides: seq<int>, unit: nat)
    requires |shape| == |strides| && AllPositive(shape) && Contiguous(shape, strides, unit)
    ensures Below(shape, strides) == 0 && Above(shape, strides) + unit == Product(shape) * unit
    decreases |shape|
  {
    if shape != [] {
      var n := |shape| - 1;
      ProductNonNegative(unit, shape[n]);
      assert AllPositive(shape[..n]);
      ContiguousReach(shape[..n], strides[..n], unit * shape[n]);
      Associate(Product(shape[..n]), shape[n], unit);
      Distribute(shape[n], 1, unit);
    }
  }

  /** Walks from the last axis, expecting at each the unit times the dimensions passed. */
  method IsContiguous(a: Descriptor) returns (yes: bool)
    ensures yes <==> Valid(a) && (a.size == 0 || Contiguous(a.shape, a.strides, a.itemsize))
  {
    var status := Validate(a);
    if status != Ok { return false; }
    if a.size == 0 || |a.shape| == 0 { return true; }
    PositiveProduct(a.shape);
    ghost var whole := Product(a.shape) * a.itemsize;
    if Contiguous(a.shape, a.strides, a.itemsize) { ContiguousReach(a.shape, a.strides, a.itemsize); }
    var axis, expected: nat := |a.shape|, a.itemsize;
    assert a.shape[..axis] == a.shape && a.strides[..axis] == a.strides;
    while axis > 0
      invariant axis <= |a.shape|
      invariant Contiguous(a.shape, a.strides, a.itemsize) <==> Contiguous(a.shape[..axis], a.strides[..axis], expected)
      invariant Product(a.shape[..axis]) * expected == whole
    {
      var current := axis - 1;
      PeelExpected(a.shape, a.strides, axis, expected);
      if a.shape[current] > 1 {
        if expected > PTRDIFF_MAX || a.strides[current] != expected { return false; }
      }
      var (fits, product) := SizeMul(expected, a.shape[current]);
      if !fits { return false; }
      axis, expected := current, product;
    }
    yes := true;
  }

  lemma {:induction false} PeelExpected(shape: seq<nat>, strides: seq<int>, axis: nat, expected: nat)
    requires |shape| == |strides| && 0 < axis <= |shape| && AllPositive(shape)
    ensures expected * shape[axis - 1] >= 0
    ensures Contiguous(shape[..axis], strides[..axis], expected) <==>
              && (shape[axis - 1] > 1 ==> strides[axis - 1] == expected)
              && Contiguous(shape[..axis - 1], strides[..axis - 1], expected * shape[axis - 1])
    ensures Product(shape[..axis]) * expected == Product(shape[..axis - 1]) * (expected * shape[axis - 1])
    ensures Product(shape[..axis]) * expected >= expected * shape[axis - 1]
  {
    var current := axis - 1;
    assert shape[..axis][..current] == shape[..current] && strides[..axis][..current] == strides[..current];
    ProductNonNegative(expected, shape[current]);
    Associate(Product(shape[..current]), shape[current], expected);
    PositiveProduct(shape[..current]);
    ProductMonotone(1, Product(shape[..current]), expected * shape[current]);
  }

  // ----- reshaping -----

  function AtLeastOne(d: nat): nat { if d == 0 then 1 else d }

  /** Strides of a contiguous array; empty axes count as one. */
  function RowStrides(shape: seq<nat>, unit: nat): (r: seq<nat>)
    ensures |r| == |shape|
  {
    if shape == [] then []
    else
      var n := |shape| - 1;
      ProductNonNegative(unit, AtLeastOne(shape[n]));
      RowStrides(shape[..n], unit * AtLeastOne(shape[n])) + [unit]
  }

  /** The last stride is the unit, and each other one is the next, times the length of the next axis unless that is
      empty. */
  lemma {:induction false} RowStridesAre(shape: seq<nat>, unit: nat, i: nat)
    requires i < |shape|
    ensures i == |shape| - 1 ==> RowStrides(shape, unit)[i] == unit
    ensures i < |shape| - 1 && shape[i + 1] == 0 ==> RowStrides(shape, unit)[i] == RowStrides(shape, unit)[i + 1]
    ensures i < |shape| - 1 && shape[i + 1] > 0 ==>
              RowStrides(shape, unit)[i] == RowStrides(shape, unit)[i + 1] * shape[i + 1]
    decreases |shape|
  {
    var n := |shape| - 1;
    if i < n {
      ProductNonNegative(unit, AtLeastOne(shape[n]));
      RowStridesAre(shape[..n], unit * AtLeastOne(shape[n]), i);
    }
  }

  lemma {:induction false} RowStridesContiguous(shape: seq<nat>, unit: nat)
    requires AllPositive(shape)
    ensures Contiguous(shape, RowStrides(shape, unit), unit)
    decreases |shape|
  {
    if shape != [] {
      var n := |shape| - 1;
      ProductNonNegative(unit, shape[n]);
      RowStridesContiguous(shape[..n], unit * shape[n]);
      assert RowStrides(shape, unit)[..n] == RowStrides(shape[..n], unit * shape[n]);
    }
  }

  predicate StridesFit(strides: seq<nat>) { forall i | 0 <= i < |strides| :: strides[i] <= PTRDIFF_MAX }

  /** The shape with empty axes counted as one. */
  function Padded(shape: seq<nat>): (r: seq<nat>)
    ensures |r| == |shape|
    ensures forall i | 0 <= i < |shape| :: r[i] == AtLeastOne(shape[i])
  {
    seq(|shape|, i requires 0 <= i < |shape| => AtLeastOne(shape[i]))
  }

  lemma {:induction false} PaddedPositive(shape: seq<nat>)
    ensures AllPositive(Padded(shape)) && (AllPositive(shape) ==> Padded(shape) == shape)
  {
  }

  /** The row-major strides can be represented, and so can the bytes they stretch over. */
  predicate RowsFit(shape: seq<nat>, itemsize: Positive) {
    shape == [] || (StridesFit(RowStrides(shape, itemsize)) && Product(Padded(shape)) * itemsize <= SIZE_MAX)
  }

  /** What the first axes stretch over, given the bytes behind one index of the last of them. */
  function BytesOver(shape: seq<nat>, axis: nat, unit: nat): (r: nat)
    requires axis <= |shape|
  {
    ProductNonNegative(Product(Padded(shape)[..axis]), unit);
    Product(Padded(shape)[..axis]) * unit
  }

  lemma {:induction false} AllBytes(shape: seq<nat>, itemsize: nat)
    ensures BytesOver(shape, |shape|, itemsize) == Product(Padded(shape)) * itemsize
    ensures BytesOver(shape, 0, itemsize) == itemsize
  {
    assert Padded(shape)[..|shape|] == Padded(shape);
    assert Padded(shape)[..0] == [];
  }

  /** Fails only if a stride cannot be represented. */
  method MakeContiguousStrides(shape: seq<Size>, itemsize: Positive) returns (status: Status, strides: seq<Stride>)
    ensures status == Ok || status == Overflow
    ensures status == Ok ==> strides == RowStrides(shape, itemsize)
    ensures status == Ok <==> RowsFit(shape, itemsize)
  {
    strides := [];
    if |shape| == 0 { return Ok, strides; }
    assert RowStrides(shape, itemsize)[|shape| - 1] == itemsize;
    if itemsize > PTRDIFF_MAX { return Overflow, strides; }
    var axis, expected: nat := |shape|, itemsize;
    assert shape[..axis] == shape;
    AllBytes(shape, itemsize);
    while axis > 0
      invariant axis <= |shape| && |strides| == |shape| - axis && expected <= SIZE_MAX
      invariant RowStrides(shape, itemsize) == RowStrides(shape[..axis], expected) + strides
      invariant BytesOver(shape, axis, expected) == BytesOver(shape, |shape|, itemsize)
    {
      var current := axis - 1;
      PeelStride(shape, axis, expected);
      assert RowStrides(shape, itemsize)[current] == expected;
      if expected > PTRDIFF_MAX { return Overflow, strides; }
      strides := [expected] + strides;
      if shape[current] != 0 {
        var (fits, product) := SizeMul(expected, shape[current]);
        if !fits { return Overflow, strides; }
        expected := product;
      }
      axis := current;
    }
    AllBytes(shape, expected);
    assert RowStrides(shape, itemsize) == [] + strides == strides;
    status := Ok;
  }

  lemma {:induction false} PeelStride(shape: seq<nat>, axis: nat, expected: nat)
    requires 0 < axis <= |shape|
    ensures expected * AtLeastOne(shape[axis - 1]) >= 0
    ensures RowStrides(shape[..axis], expected)
         == RowStrides(shape[..axis - 1], expected * AtLeastOne(shape[axis - 1])) + [expected]
    ensures BytesOver(shape, axis, expected) == BytesOver(shape, axis - 1, expected * AtLeastOne(shape[axis - 1]))
    ensures BytesOver(shape, axis, expected) >= expected * AtLeastOne(shape[axis - 1])
  {
    var current := axis - 1;
    assert shape[..axis][..current] == shape[..current];
    ProductNonNegative(expected, AtLeastOne(shape[current]));
    PaddedPositive(shape);
    PeelExpected(Padded(shape), Padded(shape), axis, expected);
  }

  predicate ReshapeOf(a: Descriptor, shape: seq<nat>, v: Descriptor) {
    && SameBuffer(a, v) && v.readonly == a.readonly && v.shape == shape && v.size == a.size && v.offset == a.offset
    && v.strides == RowStrides(shape, a.itemsize)
  }

  /** Reshaping keeps the sequence of elements. */
  lemma {:induction false} ReshapeKeepsOrder(a: Descriptor, shape: seq<nat>, v: Descriptor, i: nat)
    requires |a.shape| == |a.strides| && Contiguous(a.shape, a.strides, a.itemsize) && i < Product(a.shape)
    requires ReshapeOf(a, shape, v) && Product(shape) == Product(a.shape)
    ensures InShape(a.shape, Linear(a.shape, i)) && InShape(shape, Linear(shape, i))
    ensures ElementOffset(v, Linear(shape, i)) == ElementOffset(a, Linear(a.shape, i))
  {
    PositiveProduct(shape);
    RowStridesContiguous(shape, a.itemsize);
    ContiguousElements(a, i);
    ContiguousElements(v, i);
  }

  /** The item size of an aligned contiguous array with two elements or more is a multiple of the alignment. */
  lemma {:induction false} UnitAligned(shape: seq<nat>, strides: seq<int>, unit: nat, m: int)
    requires |shape| == |strides| && Contiguous(shape, strides, unit) && m > 0
    requires forall i | 0 <= i < |shape| && shape[i] > 1 :: Magnitude(strides[i]) % m == 0
    ensures Product(shape) > 1 ==> unit % m == 0
    decreases |shape|
  {
    if shape != [] {
      var n := |shape| - 1;
      if shape[n] == 1 {
        assert unit * shape[n] == unit;
        UnitAligned(shape[..n], strides[..n], unit, m);
      }
    }
  }

  lemma {:induction false} RowStridesAligned(shape: seq<nat>, unit: nat, m: int, i: nat)
    requires m > 0 && unit % m == 0 && i < |shape|
    ensures RowStrides(shape, unit)[i] % m == 0
    decreases |shape|
  {
    var n := |shape| - 1;
    if i < n {
      var d := AtLeastOne(shape[n]);
      MultipleIff(unit, m);
      MultipleTimes(unit, d, m);
      ProductNonNegative(unit, d);
      MultipleIff(unit * d, m);
      RowStridesAligned(shape[..n], unit * d, m, i);
    }
  }

  lemma {:induction false} RowStridesPositive(shape: seq<nat>, unit: nat, i: nat)
    requires unit > 0 && i < |shape|
    ensures RowStrides(shape, unit)[i] > 0
    decreases |shape|
  {
    var n := |shape| - 1;
    if i < n {
      ProductMonotone(1, AtLeastOne(shape[n]), unit);
      RowStridesPositive(shape[..n], unit * AtLeastOne(shape[n]), i);
    }
  }

  lemma {:induction false} OnlyOnes(shape: seq<nat>, i: nat)
    requires Product(shape) == 1 && i < |shape|
    ensures shape[i] == 1
    decreases |shape|
  {
    var n := |shape| - 1;
    PositiveProduct(shape);
    assert AllPositive(shape[..n]);
    PositiveProduct(shape[..n]);
    ProductMonotone(1, shape[n], Product(shape[..n]));
    ProductMonotone(1, Product(shape[..n]), shape[n]);
    assert Product(shape[..n]) == 1 && shape[n] == 1;
    if i < n { OnlyOnes(shape[..n], i); }
  }

  lemma {:induction false} RowsAligned(a: Descriptor, shape: seq<nat>)
    requires Source(a) && Contiguous(a.shape, a.strides, a.itemsize) && Product(shape) == a.size
    ensures forall i | 0 <= i < |shape| && shape[i] > 1 :: RowStrides(shape, a.itemsize)[i] % a.alignment == 0
  {
    UnitAligned(a.shape, a.strides, a.itemsize, a.alignment);
    forall i | 0 <= i < |shape| && shape[i] > 1
      ensures RowStrides(shape, a.itemsize)[i] % a.alignment == 0
    {
      if a.size == 1 { OnlyOnes(shape, i); } else { RowStridesAligned(shape, a.itemsize, a.alignment, i); }
    }
  }

  lemma {:induction false} ReshapedStridesOk(a: Descriptor, shape: seq<nat>, v: Descriptor)
    requires Source(a) && Contiguous(a.shape, a.strides, a.itemsize) && ReshapeOf(a, shape, v)
    requires Product(shape) == a.size
    ensures StridesOk(v)
  {
    RowsAligned(a, shape);
    forall i | 0 <= i < |v.shape|
      ensures v.strides[i] > 0 && (v.shape[i] > 1 ==> Magnitude(v.strides[i]) % v.alignment == 0)
    {
      RowStridesPositive(shape, a.itemsize, i);
    }
  }

  /** What can go wrong with the new shape. */
  predicate ReshapeFits(a: Descriptor, shape: seq<nat>) {
    && Product(shape) == a.size && PrefixesFit(shape) && RowsFit(shape, a.itemsize)
    && forall i | 0 <= i < |shape| && shape[i] > 1 :: RowStrides(shape, a.itemsize)[i] % a.alignment == 0
  }

  /** For a non-empty contiguous array, only the strides can go wrong. */
  lemma {:induction false} ReshapeFitsIff(a: Descriptor, shape: seq<nat>)
    requires Source(a) && Contiguous(a.shape, a.strides, a.itemsize)
    ensures ReshapeFits(a, shape) <==> Product(shape) == a.size && StridesFit(RowStrides(shape, a.itemsize))
  {
    if Product(shape) == a.size {
      SameSizeFits(a, shape);
      PaddedPositive(shape);
      RowsAligned(a, shape);
    }
  }

  lemma {:induction false} EmptyReshape(a: Descriptor, shape: seq<nat>, v: Descriptor)
    requires Valid(a) && a.size == 0 && ReshapeOf(a, shape, v) && Product(shape) == 0 && PrefixesFit(shape)
    ensures Valid(v) <==> forall i | 0 <= i < |shape| && shape[i] > 1 :: RowStrides(shape, a.itemsize)[i] % a.alignment == 0
  {
    forall i | 0 <= i < |shape|
      ensures v.strides[i] == RowStrides(shape, a.itemsize)[i] == Magnitude(v.strides[i]) != 0
    {
      RowStridesPositive(shape, a.itemsize, i);
    }
  }

  lemma {:induction false} ReshapeIsValid(a: Descriptor, shape: seq<nat>, v: Descriptor)
    requires Source(a) && Contiguous(a.shape, a.strides, a.itemsize) && ReshapeOf(a, shape, v)
    requires Product(shape) == a.size
    ensures Valid(v)
  {
    PositiveProduct(shape);
    ReshapedStridesOk(a, shape, v);
    forall c | InShape(v.shape, c)
      ensures FromSource(a, v, c)
    {
      RankBound(shape, c);
      LinearOfRank(shape, c);
      ReshapeKeepsOrder(a, shape, v, Rank(shape, c));
    }
    ViewIsValid(a, v);
  }

  /** A contiguous array can be viewed in every shape with as many elements that fits, and a non-empty one in all of
      them, unless one of the new strides cannot be represented. */
  method ReshapeView(a: Descriptor, shape: seq<Size>) returns (status: Status, v: Descriptor)
    requires RealBuffer(a)
    ensures status == Ok ==> Valid(a) && Valid(v) && ReshapeOf(a, shape, v)
    ensures status == Ok && a.size > 0 ==> Contiguous(a.shape, a.strides, a.itemsize) && Product(shape) == a.size
    ensures Source(a) ==>
              (status == Ok <==> && Contiguous(a.shape, a.strides, a.itemsize) && Product(shape) == a.size
                                 && StridesFit(RowStrides(shape, a.itemsize)))
    ensures Valid(a) ==>
              (status == Ok <==> (a.size == 0 || Contiguous(a.shape, a.strides, a.itemsize)) && ReshapeFits(a, shape))
  {
    v := a;
    status := Validate(a);
    if status != Ok { return; }
    var contiguous := IsContiguous(a);
    if !contiguous { return Unsupported, v; }
    var size;
    status, size := ShapeSize(shape);
    if a.size > 0 { ReshapeFitsIff(a, shape); }
    if status != Ok { return; }
    if size != a.size { return Argument, v; }
    var strides;
    status, strides := MakeContiguousStrides(shape, a.itemsize);
    if status != Ok { return; }
    v := a.(shape := shape, strides := strides, size := size);
    if a.size > 0 { ReshapeIsValid(a, shape, v); } else { EmptyReshape(a, shape, v); }
    status := Validate(v);
  }

  lemma {:induction false} SameSizeFits(a: Descriptor, shape: seq<nat>)
    ensures Source(a) && Product(shape) == a.size ==> PrefixesFit(shape)
    ensures Source(a) && Contiguous(a.shape, a.strides, a.itemsize) && Product(shape) == a.size ==>
              AllPositive(shape) && Product(shape) * a.itemsize <= SIZE_MAX
  {
    if Source(a) && Product(shape) == a.size {
      PositiveProduct(shape);
      forall k | 0 <= k <= |shape|
        ensures Product(shape[..k]) <= SIZE_MAX
      {
        PrefixBelowProduct(shape, k);
      }
      if Contiguous(a.shape, a.strides, a.itemsize) {
        SourcePositive(a);
        ContiguousReach(a.shape, a.strides, a.itemsize);
      }
    }
  }
}
