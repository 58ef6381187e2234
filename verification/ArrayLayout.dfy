/** Strided descriptors over a byte buffer: what validation means, and where elements are. */
module ArrayLayout {
  import opened Arithmetic

  const SIZE_MAX: int := 0xFFFF_FFFF_FFFF_FFFF
  const PTRDIFF_MAX: int := 0x7FFF_FFFF_FFFF_FFFF

  type Size = x: int | 0 <= x <= SIZE_MAX
  type Stride = x: int | -PTRDIFF_MAX - 1 <= x <= PTRDIFF_MAX
  type Positive = x: int | 0 < x <= SIZE_MAX witness 1

  /** `bytes` and `address` are those of the buffer; item size and alignment are those of the element type. */
  datatype Descriptor = Descriptor(
    shape: seq<Size>, strides: seq<Stride>, offset: Size, itemsize: Positive, size: Size, readonly: bool,
    bytes: Size, address: Size, alignment: Positive)

  datatype Status = Ok | Argument | Overflow | Unsupported

  function Product(shape: seq<nat>): nat {
    if shape == [] then 1 else Product(shape[..|shape| - 1]) * shape[|shape| - 1]
  }

  function Dot(coords: seq<int>, strides: seq<int>): int
    requires |coords| == |strides|
  {
    if coords == [] then 0
    else
      var n := |coords| - 1;
      Dot(coords[..n], strides[..n]) + coords[n] * strides[n]
  }

  predicate InShape(shape: seq<nat>, coords: seq<nat>) {
    |coords| == |shape| && forall i | 0 <= i < |shape| :: coords[i] < shape[i]
  }

  /** Where the element at these coordinates begins. */
  function ElementOffset(a: Descriptor, coords: seq<nat>): int
    requires |coords| == |a.strides|
  {
    a.offset + Dot(coords, a.strides)
  }

  function Magnitude(stride: int): nat { if stride >= 0 then stride else -stride }

  function Extent(d: nat, stride: int): nat {
    if d <= 1 then 0 else ExtentOf(d, Magnitude(stride))
  }

  function ExtentOf(d: nat, m: nat): nat
    requires d > 0
  {
    ProductNonNegative(d - 1, m);
    (d - 1) * m
  }

  /** How far the axes reach below and above the offset. */
  function Below(shape: seq<nat>, strides: seq<int>): nat
    requires |shape| == |strides|
  {
    if shape == [] then 0
    else
      var n := |shape| - 1;
      Below(shape[..n], strides[..n]) + if strides[n] < 0 then Extent(shape[n], strides[n]) else 0
  }

  function Above(shape: seq<nat>, strides: seq<int>): nat
    requires |shape| == |strides|
  {
    if shape == [] then 0
    else
      var n := |shape| - 1;
      Above(shape[..n], strides[..n]) + if strides[n] < 0 then 0 else Extent(shape[n], strides[n])
  }

  predicate PrefixesFit(shape: seq<nat>) { forall k | 0 <= k <= |shape| :: Product(shape[..k]) <= SIZE_MAX }

  predicate ReachOk(a: Descriptor)
    requires |a.shape| == |a.strides|
  {
    Below(a.shape, a.strides) <= a.offset && a.offset + Above(a.shape, a.strides) + a.itemsize <= a.bytes
  }

  function Lowest(a: Descriptor): int
    requires |a.shape| == |a.strides|
  {
    a.offset - Below(a.shape, a.strides)
  }

  predicate StridesOk(a: Descriptor)
    requires |a.shape| == |a.strides|
  {
    && (forall i | 0 <= i < |a.shape| && a.shape[i] > 1 :: Magnitude(a.strides[i]) % a.alignment == 0)
    && (!a.readonly ==> forall i | 0 <= i < |a.strides| :: a.strides[i] != 0)
  }

  /** What validation accepts. */
  predicate Valid(a: Descriptor) {
    && |a.shape| == |a.strides| && PrefixesFit(a.shape) && a.size == Product(a.shape)
    && StridesOk(a) && a.offset <= a.bytes
    && (a.size > 0 ==>
          ReachOk(a) && a.address + Lowest(a) <= SIZE_MAX && (a.address + Lowest(a)) % a.alignment == 0)
  }

  // ----- reach -----

  predicate AllPositive(shape: seq<nat>) { forall i | 0 <= i < |shape| :: shape[i] > 0 }

  lemma {:induction false} PositiveProduct(shape: seq<nat>)
    ensures Product(shape) > 0 <==> AllPositive(shape)
    decreases |shape|
  {
    if shape != [] {
      var n := |shape| - 1;
      PositiveProduct(shape[..n]);
      assert shape == shape[..n] + [shape[n]];
      if Product(shape[..n]) > 0 && shape[n] > 0 { ProductMonotone(1, Product(shape[..n]), shape[n]); }
    }
  }

  lemma {:induction false} TermBounds(c: nat, d: nat, stride: int)
    requires c < d
    ensures if stride < 0 then -(Extent(d, stride) as int) <= c * stride <= 0 else 0 <= c * stride <= Extent(d, stride)
  {
    var m := Magnitude(stride);
    ProductMonotone(0, c, m);
    ProductMonotone(c, d - 1, m);
    assert stride < 0 ==> c * stride == -(c * m);
  }

  /** Elements lie between the lowest and the highest reachable position. */
  lemma {:induction false} DotBounds(shape: seq<nat>, strides: seq<int>, coords: seq<nat>)
    requires |shape| == |strides| && InShape(shape, coords)
    ensures -(Below(shape, strides) as int) <= Dot(coords, strides) <= Above(shape, strides)
    decreases |shape|
  {
    if shape != [] {
      var n := |shape| - 1;
      DotBounds(shape[..n], strides[..n], coords[..n]);
      TermBounds(coords[n], shape[n], strides[n]);
    }
  }

  /** The coordinates of the lowest and of the highest element. */
  function LowCoords(shape: seq<nat>, strides: seq<int>): seq<nat>
    requires |shape| == |strides| && AllPositive(shape)
  {
    seq(|shape|, i requires 0 <= i < |shape| => if strides[i] < 0 then shape[i] - 1 else 0)
  }

  function HighCoords(shape: seq<nat>, strides: seq<int>): seq<nat>
    requires |shape| == |strides| && AllPositive(shape)
  {
    seq(|shape|, i requires 0 <= i < |shape| => if strides[i] < 0 then 0 else shape[i] - 1)
  }

  lemma {:induction false} BoundsAttained(shape: seq<nat>, strides: seq<int>)
    requires |shape| == |strides| && AllPositive(shape)
    ensures InShape(shape, LowCoords(shape, strides)) && Dot(LowCoords(shape, strides), strides) == -(Below(shape, strides) as int)
    ensures InShape(shape, HighCoords(shape, strides)) && Dot(HighCoords(shape, strides), strides) == Above(shape, strides)
    decreases |shape|
  {
    if shape != [] {
      var n := |shape| - 1;
      BoundsAttained(shape[..n], strides[..n]);
      assert LowCoords(shape, strides)[..n] == LowCoords(shape[..n], strides[..n]);
      assert HighCoords(shape, strides)[..n] == HighCoords(shape[..n], strides[..n]);
      assert strides[n] < 0 ==> (shape[n] - 1) * strides[n] == -((shape[n] - 1) * Magnitude(strides[n]));
    }
  }

  predicate Inside(a: Descriptor, coords: seq<nat>)
    requires |coords| == |a.strides|
  {
    0 <= ElementOffset(a, coords) && ElementOffset(a, coords) + a.itemsize <= a.bytes
  }

  /** The two comparisons of validation hold exactly if every element lies in the buffer as a whole. */
  lemma {:induction false} ReachIffInside(a: Descriptor)
    requires |a.shape| == |a.strides| && AllPositive(a.shape)
    ensures ReachOk(a) <==> forall coords | InShape(a.shape, coords) :: Inside(a, coords)
  {
    BoundsAttained(a.shape, a.strides);
    var low, high := LowCoords(a.shape, a.strides), HighCoords(a.shape, a.strides);
    if forall coords | InShape(a.shape, coords) :: Inside(a, coords) {
      assert Inside(a, low) && Inside(a, high);
    }
    if ReachOk(a) {
      forall coords | InShape(a.shape, coords)
        ensures Inside(a, coords)
      {
        DotBounds(a.shape, a.strides, coords);
      }
    }
  }

  /** Every element of a validated descriptor lies in the buffer as a whole. */
  lemma {:induction false} ElementsInside(a: Descriptor, coords: seq<nat>)
    requires Valid(a) && InShape(a.shape, coords)
    ensures Inside(a, coords)
  {
    forall i | 0 <= i < |a.shape|
      ensures a.shape[i] > 0
    {
      assert coords[i] < a.shape[i];
    }
    PositiveProduct(a.shape);
    DotBounds(a.shape, a.strides, coords);
  }

  // ----- alignment -----

  lemma {:induction false} DotAligned(shape: seq<nat>, strides: seq<int>, coords: seq<nat>, other: seq<nat>, m: int)
    requires |shape| == |strides| && InShape(shape, coords) && InShape(shape, other) && m > 0
    requires forall i | 0 <= i < |shape| && shape[i] > 1 :: Magnitude(strides[i]) % m == 0
    ensures Multiple(Dot(coords, strides) - Dot(other, strides), m)
    decreases |shape|
  {
    if shape == [] {
      MultipleZero(m);
    } else {
      var n := |shape| - 1;
      DotAligned(shape[..n], strides[..n], coords[..n], other[..n], m);
      var c := (coords[n] as int) - other[n];
      Distribute(coords[n], other[n], strides[n]);
      if shape[n] > 1 {
        MultipleIff(Magnitude(strides[n]), m);
        MultipleNegated(Magnitude(strides[n]), m);
        MultipleTimes(strides[n], c, m);
      } else {
        assert c == 0;
        MultipleZero(m);
      }
      MultipleAdd(Dot(coords[..n], strides[..n]) - Dot(other[..n], strides[..n]), c * strides[n], m);
    }
  }

  /** Every element of a validated descriptor is aligned. */
  lemma {:induction false} ElementsAligned(a: Descriptor, coords: seq<nat>)
    requires Valid(a) && InShape(a.shape, coords) && AllPositive(a.shape)
    ensures (a.address + ElementOffset(a, coords)) % a.alignment == 0
  {
    PositiveProduct(a.shape);
    BoundsAttained(a.shape, a.strides);
    var low := LowCoords(a.shape, a.strides);
    DotAligned(a.shape, a.strides, coords, low, a.alignment);
    MultipleIff(a.address + Lowest(a), a.alignment);
    MultipleAdd(a.address + Lowest(a), Dot(coords, a.strides) - Dot(low, a.strides), a.alignment);
    MultipleIff(a.address + ElementOffset(a, coords), a.alignment);
  }

  // ----- what validation asks, element by element -----

  /** The element at these coordinates lies in the buffer, and is aligned. */
  ghost predicate Placed(a: Descriptor, coords: seq<nat>)
    requires |coords| == |a.strides|
  {
    Inside(a, coords) && Multiple(a.address + ElementOffset(a, coords), a.alignment)
  }

  /** The strides lead from aligned element to aligned element, and none is zero where elements can be written. */
  ghost predicate Regular(a: Descriptor)
    requires |a.shape| == |a.strides|
  {
    && (forall i | 0 <= i < |a.shape| && a.shape[i] >= 2 :: Multiple(a.strides[i], a.alignment))
    && (a.readonly || forall i | 0 <= i < |a.strides| :: a.strides[i] != 0)
  }

  /** Every element is placed, and the first of them in memory has an address. */
  ghost predicate AllPlaced(a: Descriptor)
    requires |a.shape| == |a.strides|
  {
    && (forall c: seq<nat> | InShape(a.shape, c) :: Placed(a, c))
    && (AllPositive(a.shape) ==>
          exists c: seq<nat> :: InShape(a.shape, c) && a.address + ElementOffset(a, c) <= 0xFFFF_FFFF_FFFF_FFFF)
  }

  ghost predicate Usable(a: Descriptor) {
    && |a.shape| == |a.strides| && a.size == Product(a.shape)
    && (forall k | 0 <= k <= |a.shape| :: Product(a.shape[..k]) <= 0xFFFF_FFFF_FFFF_FFFF)
    && Regular(a) && a.offset <= a.bytes && AllPlaced(a)
  }

  lemma {:induction false} RegularIff(a: Descriptor)
    requires |a.shape| == |a.strides|
    ensures StridesOk(a) <==> Regular(a)
  {
    forall i | 0 <= i < |a.shape|
      ensures Multiple(a.strides[i], a.alignment) <==> Magnitude(a.strides[i]) % a.alignment == 0
    {
      MultipleIff(Magnitude(a.strides[i]), a.alignment);
      MultipleNegated(Magnitude(a.strides[i]), a.alignment);
    }
  }

  /** The bounds of validation. */
  predicate LowestOk(a: Descriptor)
    requires |a.shape| == |a.strides|
  {
    ReachOk(a) && a.address + Lowest(a) <= SIZE_MAX && (a.address + Lowest(a)) % a.alignment == 0
  }

  lemma {:induction false} PlacedBounds(a: Descriptor)
    requires |a.shape| == |a.strides| && AllPositive(a.shape) && AllPlaced(a)
    ensures LowestOk(a)
  {
    BoundsAttained(a.shape, a.strides);
    var low := LowCoords(a.shape, a.strides);
    assert Placed(a, low);
    MultipleIff(a.address + Lowest(a), a.alignment);
    var c: seq<nat> :| InShape(a.shape, c) && a.address + ElementOffset(a, c) <= 0xFFFF_FFFF_FFFF_FFFF;
    DotBounds(a.shape, a.strides, c);
    forall c: seq<nat> | InShape(a.shape, c)
      ensures Inside(a, c)
    {
      assert Placed(a, c);
    }
    ReachIffInside(a);
  }

  lemma {:induction false} BoundsPlace(a: Descriptor)
    requires |a.shape| == |a.strides| && AllPositive(a.shape) && StridesOk(a) && LowestOk(a)
    ensures AllPlaced(a)
  {
    BoundsAttained(a.shape, a.strides);
    var low := LowCoords(a.shape, a.strides);
    assert a.address + ElementOffset(a, low) <= 0xFFFF_FFFF_FFFF_FFFF;
    forall c: seq<nat> | InShape(a.shape, c)
      ensures Placed(a, c)
    {
      OnePlaced(a, c, low);
    }
  }

  lemma {:induction false} OnePlaced(a: Descriptor, c: seq<nat>, low: seq<nat>)
    requires |a.shape| == |a.strides| && AllPositive(a.shape) && StridesOk(a) && LowestOk(a)
    requires InShape(a.shape, c) && InShape(a.shape, low) && Dot(low, a.strides) == -(Below(a.shape, a.strides) as int)
    ensures Placed(a, c)
  {
    DotBounds(a.shape, a.strides, c);
    DotAligned(a.shape, a.strides, c, low, a.alignment);
    MultipleIff(a.address + Lowest(a), a.alignment);
    MultipleAdd(a.address + Lowest(a), Dot(c, a.strides) - Dot(low, a.strides), a.alignment);
  }

  /** Validation accepts a descriptor exactly if its size is that of its shape and every element can be used. */
  lemma {:induction false} ValidIff(a: Descriptor)
    ensures Valid(a) <==> Usable(a)
  {
    if |a.shape| == |a.strides| {
      RegularIff(a);
      PositiveProduct(a.shape);
      if AllPositive(a.shape) {
        if AllPlaced(a) { PlacedBounds(a); }
        if StridesOk(a) && LowestOk(a) { BoundsPlace(a); }
      } else {
        NoElements(a.shape);
      }
    }
  }

  lemma {:induction false} NoElements(shape: seq<nat>)
    requires !AllPositive(shape)
    ensures forall c: seq<nat> :: !InShape(shape, c)
  {
    var i :| 0 <= i < |shape| && shape[i] == 0;
    forall c: seq<nat>
      ensures !InShape(shape, c)
    {
    }
  }

  // ----- validation as the program does it -----

  /** Multiplication that notices overflow. */
  function SizeMul(a: nat, b: nat): (r: (bool, nat)) {
    ProductNonNegative(a, b);
    (a * b <= SIZE_MAX, a * b)
  }

  method ShapeSize(shape: seq<Size>) returns (status: Status, size: nat)
    ensures status == if PrefixesFit(shape) then Ok else Overflow
    ensures status == Ok ==> size == Product(shape) <= SIZE_MAX
  {
    size := 1;
    assert shape[..0] == [];
    for axis := 0 to |shape|
      invariant size == Product(shape[..axis]) <= SIZE_MAX
      invariant forall k | 0 <= k <= axis :: Product(shape[..k]) <= SIZE_MAX
    {
      assert shape[..axis + 1][..axis] == shape[..axis];
      var (fits, product) := SizeMul(size, shape[axis]);
      assert Product(shape[..axis + 1]) == product;
      if !fits { return Overflow, size; }
      size := product;
    }
    assert shape[..|shape|] == shape;
    status := Ok;
  }

  lemma {:induction false} ReachGrows(shape: seq<nat>, strides: seq<int>, k: nat)
    requires |shape| == |strides| && k <= |shape|
    ensures Below(shape[..k], strides[..k]) <= Below(shape, strides) && Above(shape[..k], strides[..k]) <= Above(shape, strides)
    decreases |shape|
  {
    if k == |shape| {
      assert shape[..k] == shape && strides[..k] == strides;
    } else {
      var n := |shape| - 1;
      ReachGrows(shape[..n], strides[..n], k);
      assert shape[..n][..k] == shape[..k] && strides[..n][..k] == strides[..k];
    }
  }

  /** Lowest and highest reachable position. */
  method ReachableBounds(a: Descriptor) returns (status: Status, lowest: int, highest: int)
    requires |a.shape| == |a.strides|
    ensures status == Ok ==> lowest == Lowest(a) >= 0 && highest == a.offset + Above(a.shape, a.strides)
    ensures status != Ok ==> !ReachOk(a)
  {
    lowest, highest := 0, 0;
    var negative: nat, positive: nat := 0, 0;
    for axis := 0 to |a.shape|
      invariant negative == Below(a.shape[..axis], a.strides[..axis])
      invariant positive == Above(a.shape[..axis], a.strides[..axis])
    {
      var shape, strides := a.shape[..axis + 1], a.strides[..axis + 1];
      assert shape[..axis] == a.shape[..axis] && strides[..axis] == a.strides[..axis];
      ReachGrows(a.shape, a.strides, axis + 1);
      if a.shape[axis] > 1 {
        var (fits, extent) := SizeMul(a.shape[axis] - 1, Magnitude(a.strides[axis]));
        assert extent == Extent(a.shape[axis], a.strides[axis]);
        if !fits { return Overflow, lowest, highest; }
        if a.strides[axis] < 0 { negative := negative + extent; } else { positive := positive + extent; }
        if negative > SIZE_MAX || positive > SIZE_MAX { return Overflow, lowest, highest; }
      }
    }
    assert a.shape[..|a.shape|] == a.shape && a.strides[..|a.strides|] == a.strides;
    if negative > a.offset { return Argument, lowest, highest; }
    if positive > SIZE_MAX - a.offset { return Overflow, lowest, highest; }
    status, lowest, highest := Ok, a.offset - negative, a.offset + positive;
  }

  method Validate(a: Descriptor) returns (status: Status)
    ensures status == Ok <==> Valid(a)
    ensures status == Ok <==> Usable(a)
  {
    ValidIff(a);
    if |a.shape| != |a.strides| { return Argument; }
    var expected;
    status, expected := ShapeSize(a.shape);
    if status != Ok { return; }
    if a.size != expected { return Argument; }
    var zeroStride := false;
    for axis := 0 to |a.shape|
      invariant zeroStride <==> exists i :: 0 <= i < axis && a.strides[i] == 0
      invariant forall i | 0 <= i < axis && a.shape[i] > 1 :: Magnitude(a.strides[i]) % a.alignment == 0
    {
      if a.strides[axis] == 0 { zeroStride := true; }
      if a.shape[axis] > 1 && Magnitude(a.strides[axis]) % a.alignment != 0 { return Argument; }
    }
    if zeroStride && !a.readonly { return Argument; }
    if a.offset > a.bytes { return Argument; }
    if a.size == 0 { return Ok; }
    var lowest, highest;
    status, lowest, highest := ReachableBounds(a);
    if status != Ok { return; }
    if highest > a.bytes || a.itemsize > a.bytes - highest { return Argument; }
    if a.address > SIZE_MAX - lowest || (a.address + lowest) % a.alignment != 0 { return Argument; }
  }

  lemma {:induction false} DotNext(coords: seq<nat>, strides: seq<int>, k: nat)
    requires |coords| == |strides| && k < |coords|
    ensures Dot(coords[..k + 1], strides[..k + 1])
         == Dot(coords[..k], strides[..k])
            + (if strides[k] < 0 then -(coords[k] * Magnitude(strides[k]) as int) else coords[k] * Magnitude(strides[k]))
  {
    assert coords[..k + 1][..k] == coords[..k] && strides[..k + 1][..k] == strides[..k];
    assert strides[k] < 0 ==> coords[k] * strides[k] == -(coords[k] * Magnitude(strides[k]));
  }

  /** Walks over the axes; the position never leaves the range of a size on the way. */
  method LocateElement(a: Descriptor, coords: seq<nat>) returns (offset: Size)
    requires Valid(a) && InShape(a.shape, coords)
    ensures offset == ElementOffset(a, coords)
  {
    ElementsInside(a, coords);
    var position: int := a.offset;
    for axis := 0 to |a.shape|
      invariant position == a.offset + Dot(coords[..axis], a.strides[..axis])
      invariant 0 <= position <= SIZE_MAX
    {
      var delta: int := coords[axis] * Magnitude(a.strides[axis]);
      DotNext(coords, a.strides, axis);
      position := if a.strides[axis] < 0 then position - delta else position + delta;
      PartWay(a, coords, axis + 1);
    }
    assert coords[..|coords|] == coords && a.strides[..|a.strides|] == a.strides;
    offset := position;
  }

  lemma {:induction false} PartWay(a: Descriptor, coords: seq<nat>, k: nat)
    requires Valid(a) && InShape(a.shape, coords) && k <= |a.shape|
    ensures 0 <= a.offset + Dot(coords[..k], a.strides[..k]) <= SIZE_MAX
  {
    forall i | 0 <= i < |a.shape|
      ensures a.shape[i] > 0
    {
      assert coords[i] < a.shape[i];
    }
    PositiveProduct(a.shape);
    DotBounds(a.shape[..k], a.strides[..k], coords[..k]);
    ReachGrows(a.shape, a.strides, k);
  }
}
