/** Views of strided arrays: which source element each element of a view is, and that views of validated
    non-empty arrays are valid. */
module ArrayViews {
  import opened Arithmetic
  import opened ArrayLayout

  /** Buffers do not wrap around the address space. */
  predicate RealBuffer(a: Descriptor) { a.address + a.bytes <= SIZE_MAX }

  /** A validated array with elements. */
  predicate Source(a: Descriptor) { Valid(a) && RealBuffer(a) && a.size > 0 }

  predicate SameBuffer(a: Descriptor, v: Descriptor) {
    && v.itemsize == a.itemsize && v.bytes == a.bytes && v.address == a.address && v.alignment == a.alignment
    && (a.readonly ==> v.readonly)
  }

  /** Every element of the view is an element of the source. */
  ghost predicate ViewOf(a: Descriptor, v: Descriptor) {
    && SameBuffer(a, v) && |v.shape| == |v.strides| && |a.shape| == |a.strides|
    && forall c | InShape(v.shape, c) :: FromSource(a, v, c)
  }

  ghost predicate FromSource(a: Descriptor, v: Descriptor, c: seq<nat>)
    requires |v.strides| == |c| && |a.shape| == |a.strides|
  {
    exists s :: InShape(a.shape, s) && ElementOffset(v, c) == ElementOffset(a, s)
  }

  lemma {:induction false} SourcePositive(a: Descriptor)
    requires Source(a)
    ensures AllPositive(a.shape) && ReachOk(a)
  {
    PositiveProduct(a.shape);
  }

  lemma {:induction false} PrefixBelowProduct(shape: seq<nat>, k: nat)
    requires AllPositive(shape) && k <= |shape|
    ensures Product(shape[..k]) <= Product(shape)
    decreases |shape|
  {
    if k == |shape| {
      assert shape[..k] == shape;
    } else {
      var n := |shape| - 1;
      assert AllPositive(shape[..n]);
      PrefixBelowProduct(shape[..n], k);
      assert shape[..n][..k] == shape[..k];
      ProductMonotone(1, shape[n], Product(shape[..n]));
    }
  }

  /** A non-empty view whose elements are elements of the source is valid. */
  lemma {:induction false} ViewIsValid(a: Descriptor, v: Descriptor)
    requires Source(a) && ViewOf(a, v) && AllPositive(v.shape)
    requires v.size == Product(v.shape) <= SIZE_MAX && StridesOk(v) && v.offset <= v.bytes
    ensures Valid(v)
  {
    SourcePositive(a);
    forall c | InShape(v.shape, c)
      ensures Inside(v, c)
    {
      assert FromSource(a, v, c);
      var s :| InShape(a.shape, s) && ElementOffset(v, c) == ElementOffset(a, s);
      ElementsInside(a, s);
    }
    ReachIffInside(v);
    forall k | 0 <= k <= |v.shape|
      ensures Product(v.shape[..k]) <= SIZE_MAX
    {
      PrefixBelowProduct(v.shape, k);
    }
    LowestAligned(a, v);
  }

  lemma {:induction false} LowestAligned(a: Descriptor, v: Descriptor)
    requires Source(a) && ViewOf(a, v) && AllPositive(v.shape) && ReachOk(v)
    ensures v.address + Lowest(v) <= SIZE_MAX && (v.address + Lowest(v)) % v.alignment == 0
  {
    SourcePositive(a);
    BoundsAttained(v.shape, v.strides);
    var low := LowCoords(v.shape, v.strides);
    assert FromSource(a, v, low);
    var s :| InShape(a.shape, s) && ElementOffset(v, low) == ElementOffset(a, s);
    ElementsAligned(a, s);
    assert Lowest(v) == ElementOffset(v, low);
  }

  // ----- slices -----

  datatype Slice = Slice(hasStart: bool, start: Stride, hasStop: bool, stop: Stride, step: Stride)

  function Clamp(x: int, low: int, high: int): int { if x < low then low else if x > high then high else x }

  /** A bound of a slice: the default if it is omitted, counted from the end if negative. */
  function Bound(given: bool, value: int, default: int, length: nat): int {
    if !given then default else if value < 0 then value + length else value
  }

  function SliceStart(length: nat, s: Slice): int {
    if s.step > 0 then Clamp(Bound(s.hasStart, s.start, 0, length), 0, length)
    else Clamp(Bound(s.hasStart, s.start, length as int - 1, length), -1, length as int - 1)
  }

  function SliceStop(length: nat, s: Slice): int {
    if s.step > 0 then Clamp(Bound(s.hasStop, s.stop, length, length), 0, length)
    else Clamp(Bound(s.hasStop, s.stop, -1, length), -1, length as int - 1)
  }

  /** How many steps of a size there are in a span. */
  function Steps(span: int, step: int): nat
    requires step > 0
  {
    if span > 0 then 1 + (span - 1) / step else 0
  }

  function SliceCount(length: nat, s: Slice): nat
    requires s.step != 0
  {
    var first, last := SliceStart(length, s), SliceStop(length, s);
    if s.step > 0 then Steps(last - first, s.step) else Steps(first - last, Magnitude(s.step))
  }

  lemma {:induction false} StepsBound(span: int, step: int, i: nat)
    requires step > 0
    ensures i < Steps(span, step) <==> i * step < span
    ensures span >= 0 ==> Steps(span, step) <= span
  {
    ProductNonNegative(i, step);
    if span > 0 {
      QuotientBound(span - 1, step, i);
      var q := (span - 1) / step;
      QuotientBound(span - 1, step, q);
      ProductMonotone(1, step, q);
    }
  }

  /** The i-th selected index. */
  function Selected(length: nat, s: Slice, i: nat): int { SliceStart(length, s) + i * s.step }

  /** Exactly the indices before the stop, in steps from the start, are selected, and all exist. */
  lemma {:induction false} SliceSelects(length: nat, s: Slice, i: nat)
    requires s.step != 0
    ensures i < SliceCount(length, s) <==>
              if s.step > 0 then Selected(length, s, i) < SliceStop(length, s)
              else Selected(length, s, i) > SliceStop(length, s)
    ensures i < SliceCount(length, s) ==> 0 <= Selected(length, s, i) < length
  {
    var first, last := SliceStart(length, s), SliceStop(length, s);
    if s.step > 0 {
      StepsBound(last - first, s.step, i);
      ProductNonNegative(i, s.step);
    } else {
      StepsBound(first - last, Magnitude(s.step), i);
      ProductNonNegative(i, Magnitude(s.step));
      NegatedProduct(i, s.step);
    }
  }

  lemma {:induction false} NegatedProduct(i: int, step: int)
    requires step <= 0
    ensures i * step == -(i * Magnitude(step) as int)
  {
  }

  // ----- which indices those are -----

  /** The selected indices, in order. */
  function Selection(length: nat, s: Slice): seq<int>
    requires s.step != 0
  {
    seq(SliceCount(length, s), i requires 0 <= i < SliceCount(length, s) => Selected(length, s, i))
  }

  /** Behind a bound in the direction of the slice, or at it; a negative bound counts from the end. */
  predicate Reached(length: nat, step: int, bound: int, j: int) {
    var at := if bound < 0 then length + bound else bound;
    if step > 0 then at <= j else j <= at
  }

  predicate Begun(length: nat, s: Slice, j: int) { s.hasStart ==> Reached(length, s.step, s.start, j) }

  predicate Ended(length: nat, s: Slice, j: int) { s.hasStop && Reached(length, s.step, s.stop, j) }

  /** The first index of the axis, in the direction of the slice, at which it has begun. */
  ghost predicate IsFirst(length: nat, s: Slice, f: int) {
    && 0 <= f < length && Begun(length, s, f)
    && forall j | 0 <= j < length && Begun(length, s, j) :: if s.step > 0 then f <= j else j <= f
  }

  /** Begun, not ended, and a whole number of steps from the first. */
  ghost predicate Picks(length: nat, s: Slice, j: int)
    requires s.step != 0
  {
    && 0 <= j < length && Begun(length, s, j) && !Ended(length, s, j)
    && exists f :: IsFirst(length, s, f) && Forth(s.step, f, j) % Magnitude(s.step) == 0
  }

  /** How far j is from f in the direction of the step. */
  function Forth(step: int, f: int, j: int): int { if step > 0 then j - f else f - j }

  lemma {:induction false} StartIsFirst(length: nat, s: Slice, f: int)
    requires s.step != 0
    ensures IsFirst(length, s, f) <==> f == SliceStart(length, s) && 0 <= f < length
  {
    var start := SliceStart(length, s);
    if 0 <= start < length { assert Begun(length, s, start); }
  }

  /** Exactly the indices picked are selected. */
  lemma {:induction false} SelectionIff(length: nat, s: Slice, j: int)
    requires s.step != 0
    ensures j in Selection(length, s) <==> Picks(length, s, j)
  {
    if k :| 0 <= k < SliceCount(length, s) && Selection(length, s)[k] == j { SelectedIsPicked(length, s, k); }
    if Picks(length, s, j) {
      var f :| IsFirst(length, s, f) && Forth(s.step, f, j) % Magnitude(s.step) == 0;
      PickedIsSelected(length, s, f, j);
    }
  }

  lemma {:induction false} SelectedIsPicked(length: nat, s: Slice, k: nat)
    requires s.step != 0 && k < SliceCount(length, s)
    ensures Picks(length, s, Selected(length, s, k))
  {
    var start := SliceStart(length, s);
    SliceSelects(length, s, k);
    SliceSelects(length, s, 0);
    StepsFrom(s.step, start, Selected(length, s, k), k);
    StartIsFirst(length, s, start);
  }

  lemma {:induction false} PickedIsSelected(length: nat, s: Slice, f: int, j: int)
    requires s.step != 0 && 0 <= j < length && Begun(length, s, j) && !Ended(length, s, j)
    requires IsFirst(length, s, f) && Forth(s.step, f, j) % Magnitude(s.step) == 0
    ensures j in Selection(length, s)
  {
    StartIsFirst(length, s, f);
    var k := Forth(s.step, f, j) / Magnitude(s.step);
    StepsFrom(s.step, f, j, k);
    SliceSelects(length, s, k);
    assert Selection(length, s)[k] == j;
  }

  lemma {:induction false} StepsFrom(step: int, f: int, j: int, k: nat)
    requires step != 0
    ensures j == f + k * step <==> Forth(step, f, j) == k * Magnitude(step)
    ensures j == f + k * step ==> Forth(step, f, j) >= 0 && Forth(step, f, j) % Magnitude(step) == 0
    ensures Forth(step, f, j) % Magnitude(step) == 0 && k == Forth(step, f, j) / Magnitude(step) ==> j == f + k * step
  {
    var m := Magnitude(step);
    ProductNonNegative(k, m);
    if step < 0 { NegatedProduct(k, step); }
    if Forth(step, f, j) == k * m { QuotientUnique(Forth(step, f, j), k, 0, m); }
  }

  /** Two neighbours in the selection are a step apart; with both bounds omitted all indices are selected, in order or
      reversed. */
  lemma {:induction false} SelectionSteps(length: nat, s: Slice, i: nat)
    requires s.step != 0 && i + 1 < |Selection(length, s)|
    ensures Selection(length, s)[i + 1] == Selection(length, s)[i] + s.step
  {
    Distribute(i, 1, s.step);
  }

  lemma {:induction false} WholeAxis(length: nat, i: nat)
    requires i < length
    ensures var forth := Slice(false, 0, false, 0, 1);
            |Selection(length, forth)| == length && Selection(length, forth)[i] == i
    ensures var back := Slice(false, 0, false, 0, -1);
            |Selection(length, back)| == length && Selection(length, back)[i] == length - 1 - i
  {
    StepsBound(length, 1, length);
    StepsBound(length, 1, length - 1);
  }

  /** The view shows the selected elements of the axis, in order. */
  ghost predicate Shows(a: Descriptor, axis: nat, s: Slice, v: Descriptor)
    requires |a.shape| == |a.strides| && axis < |a.shape| && s.step != 0
  {
    && |v.shape| == |v.strides| && v.shape == a.shape[axis := |Selection(a.shape[axis], s)|]
    && forall c | InShape(v.shape, c) :: ShowsAt(a, axis, s, v, c)
  }

  ghost predicate ShowsAt(a: Descriptor, axis: nat, s: Slice, v: Descriptor, c: seq<nat>)
    requires |a.shape| == |a.strides| && axis < |a.shape| && s.step != 0 && |v.shape| == |v.strides|
    requires v.shape == a.shape[axis := |Selection(a.shape[axis], s)|] && InShape(v.shape, c)
  {
    var index := Selection(a.shape[axis], s)[c[axis]];
    0 <= index && InShape(a.shape, c[axis := index]) && ElementOffset(v, c) == ElementOffset(a, c[axis := index])
  }

  /** The bounds as the program normalizes them. */
  method NormalizeSlice(length: Size, s: Slice) returns (start: int, stop: int, step: int, count: nat)
    requires s.step != 0
    ensures start == SliceStart(length, s) && stop == SliceStop(length, s) && step == s.step
    ensures count == SliceCount(length, s) <= length
    ensures count > 0 ==> 0 <= start < length
  {
    step := s.step;
    if step > 0 {
      start, stop := NormalizeForward(length, s);
      count := CountSteps(start, stop, step);
    } else {
      start, stop := NormalizeBackward(length, s);
      count := CountSteps(stop, start, -step);
    }
    CountBound(length, s);
  }

  method CountSteps(low: int, high: int, magnitude: int) returns (count: nat)
    requires magnitude > 0
    ensures count == Steps(high - low, magnitude)
  {
    var last := high - 1 - low;
    assert last == high - low - 1;
    if low < high {
      QuotientBound(last, magnitude, 0);
      count := 1 + last / magnitude;
    } else {
      count := 0;
    }
  }

  method NormalizeForward(length: Size, s: Slice) returns (first: int, last: int)
    requires s.step > 0
    ensures first == SliceStart(length, s) && last == SliceStop(length, s)
  {
    first := if s.hasStart then s.start else 0;
    last := if s.hasStop then s.stop else length;
    if s.hasStart && first < 0 { first := first + length; }
    if s.hasStop && last < 0 { last := last + length; }
    if first < 0 { first := 0; }
    if first > length { first := length; }
    if last < 0 { last := 0; }
    if last > length { last := length; }
  }

  method NormalizeBackward(length: Size, s: Slice) returns (first: int, last: int)
    requires s.step < 0
    ensures first == SliceStart(length, s) && last == SliceStop(length, s)
  {
    first := if s.hasStart then s.start else length as int - 1;
    last := if s.hasStop then s.stop else -1;
    if s.hasStart && first < 0 { first := first + length; }
    if s.hasStop && last < 0 { last := last + length; }
    if first < -1 { first := -1; }
    if first >= length { first := length as int - 1; }
    if last < -1 { last := -1; }
    if last >= length { last := length as int - 1; }
  }

  lemma {:induction false} CountBound(length: nat, s: Slice)
    requires s.step != 0
    ensures SliceCount(length, s) <= length
    ensures SliceCount(length, s) > 0 ==> 0 <= SliceStart(length, s) < length
  {
    var first, last := SliceStart(length, s), SliceStop(length, s);
    if s.step > 0 { StepsBound(last - first, s.step, 0); } else { StepsBound(first - last, Magnitude(s.step), 0); }
  }

  /** Strides with the one of an axis multiplied. */
  function Scaled(strides: seq<int>, axis: nat, step: int): seq<int>
    requires axis < |strides|
  {
    strides[axis := strides[axis] * step]
  }

  lemma {:induction false} DotUpdateCoord(c: seq<int>, s: seq<int>, axis: nat, v: int)
    requires |c| == |s| && axis < |c|
    ensures Dot(c[axis := v], s) == Dot(c, s) + (v - c[axis]) * s[axis]
    decreases |c|
  {
    var n := |c| - 1;
    if axis < n {
      DotUpdateCoord(c[..n], s[..n], axis, v);
      assert c[axis := v][..n] == c[..n][axis := v];
    } else {
      assert c[axis := v][..n] == c[..n];
      Distribute(v, c[n], s[n]);
    }
  }

  lemma {:induction false} DotUpdateStride(c: seq<int>, s: seq<int>, axis: nat, t: int)
    requires |c| == |s| && axis < |c|
    ensures Dot(c, s[axis := t]) == Dot(c, s) + c[axis] * (t - s[axis])
    decreases |c|
  {
    var n := |c| - 1;
    if axis < n {
      DotUpdateStride(c[..n], s[..n], axis, t);
      assert s[axis := t][..n] == s[..n][axis := t];
    } else {
      assert s[axis := t][..n] == s[..n];
      Distribute(t, s[n], c[n]);
    }
  }

  /** The source coordinates of an element of a slice. */
  function SliceCoords(c: seq<nat>, axis: nat, start: int, step: int): seq<int>
    requires axis < |c|
  {
    var ints: seq<int> := c;
    ints[axis := start + c[axis] * step]
  }

  /** Element c of a slice is the element of the source whose coordinate on the axis is start + c * step. */
  lemma {:induction false} SliceOffset(c: seq<nat>, strides: seq<int>, axis: nat, start: int, step: int)
    requires axis < |c| == |strides|
    ensures start * strides[axis] + Dot(c, Scaled(strides, axis, step))
         == Dot(SliceCoords(c, axis, start, step), strides)
  {
    var t := strides[axis] * step;
    DotUpdateStride(c, strides, axis, t);
    DotUpdateCoord(c, strides, axis, start + c[axis] * step);
    Distribute(start, c[axis] * step, strides[axis]);
    Distribute(start + c[axis] * step, c[axis], strides[axis]);
    Distribute(t, strides[axis], c[axis]);
    Associate(c[axis], step, strides[axis]);
  }

  /** Slicing selects exactly the elements start + i * step along the axis. */
  lemma {:induction false} SliceElements(a: Descriptor, axis: nat, s: Slice, v: Descriptor, c: seq<nat>)
    requires |a.shape| == |a.strides| && axis < |a.shape| && s.step != 0
    requires v.strides == Scaled(a.strides, axis, s.step) && v.shape == a.shape[axis := SliceCount(a.shape[axis], s)]
    requires v.offset == a.offset + SliceStart(a.shape[axis], s) * a.strides[axis] && InShape(v.shape, c)
    ensures var from := SliceCoords(c, axis, SliceStart(a.shape[axis], s), s.step);
            AllNatural(from) && InShape(a.shape, from) && ElementOffset(v, c) == ElementOffset(a, from)
  {
    var start := SliceStart(a.shape[axis], s);
    assert c[axis] < v.shape[axis];
    SliceSelects(a.shape[axis], s, c[axis]);
    SliceOffset(c, a.strides, axis, start, s.step);
    SlicedInShape(a.shape, axis, c, SliceCount(a.shape[axis], s), start, s.step);
  }

  /** Of a non-empty array, the beginning does not wrap around. */
  lemma {:induction false} OriginIs(a: Descriptor, axis: nat, s: Slice)
    requires Source(a) && axis < |a.shape| && s.step != 0 && SliceCount(a.shape[axis], s) > 0
    ensures SliceOrigin(a, axis, s) == a.offset + SliceStart(a.shape[axis], s) * a.strides[axis]
  {
    SliceSelects(a.shape[axis], s, 0);
    OffsetFits(a, axis, SliceStart(a.shape[axis], s), SliceCount(a.shape[axis], s));
  }

  lemma {:induction false} SliceShows(a: Descriptor, axis: nat, s: Slice, v: Descriptor)
    requires Source(a) && SliceOf(a, axis, s, v)
    ensures Shows(a, axis, s, v)
  {
    forall c: seq<nat> | InShape(v.shape, c)
      ensures ShowsAt(a, axis, s, v, c)
    {
      assert c[axis] < v.shape[axis];
      OriginIs(a, axis, s);
      SliceElements(a, axis, s, v, c);
      var from := SliceCoords(c, axis, SliceStart(a.shape[axis], s), s.step);
      assert from == c[axis := Selection(a.shape[axis], s)[c[axis]]];
    }
  }

  predicate AllNatural(c: seq<int>) { forall i | 0 <= i < |c| :: c[i] >= 0 }

  lemma {:induction false} SlicedInShape(shape: seq<nat>, axis: nat, c: seq<nat>, count: nat, start: int, step: int)
    requires axis < |shape| && InShape(shape[axis := count], c) && 0 <= start + c[axis] * step < shape[axis]
    ensures AllNatural(SliceCoords(c, axis, start, step)) && InShape(shape, SliceCoords(c, axis, start, step))
  {
    var from := SliceCoords(c, axis, start, step);
    forall i | 0 <= i < |shape|
      ensures 0 <= from[i] < shape[i]
    {
      assert c[i] < shape[axis := count][i];
    }
  }

  lemma {:induction false} ProductUpdate(shape: seq<nat>, axis: nat, d: nat)
    requires axis < |shape| && d <= shape[axis]
    ensures Product(shape[axis := d]) <= Product(shape)
    decreases |shape|
  {
    var n := |shape| - 1;
    if axis < n {
      ProductUpdate(shape[..n], axis, d);
      assert shape[axis := d][..n] == shape[..n][axis := d];
      ProductMonotone(Product(shape[..n][axis := d]), Product(shape[..n]), shape[n]);
    } else {
      assert shape[axis := d][..n] == shape[..n];
      ProductMonotone(d, shape[n], Product(shape[..n]));
    }
  }

  /** Strides of a slice stay aligned, and a zero stride only comes from a zero stride. */
  lemma {:induction false} SliceStridesOk(a: Descriptor, v: Descriptor, axis: nat, step: int, count: nat)
    requires |a.shape| == |a.strides| && axis < |a.shape| && StridesOk(a) && step != 0 && count <= a.shape[axis]
    requires v.shape == a.shape[axis := count] && v.strides == Scaled(a.strides, axis, step)
    requires v.alignment == a.alignment && v.readonly == a.readonly
    ensures StridesOk(v)
  {
    forall i | 0 <= i < |v.shape| && v.shape[i] > 1
      ensures Magnitude(v.strides[i]) % v.alignment == 0
    {
      assert Magnitude(a.strides[i]) % a.alignment == 0;
      if i == axis {
        MultipleIff(Magnitude(a.strides[i]), a.alignment);
        MultipleNegated(Magnitude(a.strides[i]), a.alignment);
        MultipleTimes(a.strides[i], step, a.alignment);
        MultipleNegated(step * a.strides[i], a.alignment);
        MultipleIff(Magnitude(v.strides[i]), a.alignment);
      }
    }
    if !a.readonly && a.strides[axis] * step == 0 { NonZeroProduct(a.strides[axis], step); }
  }

  lemma {:induction false} NonZeroProduct(a: int, b: int)
    requires a != 0 && b != 0
    ensures a * b != 0
  {
  }

  lemma {:induction false} SliceIsValid(a: Descriptor, axis: nat, s: Slice, v: Descriptor)
    requires Source(a) && axis < |a.shape| && s.step != 0 && SliceCount(a.shape[axis], s) > 0
    requires SameBuffer(a, v) && v.readonly == a.readonly
    requires v.strides == Scaled(a.strides, axis, s.step) && v.shape == a.shape[axis := SliceCount(a.shape[axis], s)]
    requires v.offset == a.offset + SliceStart(a.shape[axis], s) * a.strides[axis] && v.size == Product(v.shape)
    ensures Valid(v)
  {
    SourcePositive(a);
    CountBound(a.shape[axis], s);
    SliceStridesOk(a, v, axis, s.step, SliceCount(a.shape[axis], s));
    ProductUpdate(a.shape, axis, SliceCount(a.shape[axis], s));
    forall c | InShape(v.shape, c)
      ensures FromSource(a, v, c)
    {
      SliceElements(a, axis, s, v, c);
    }
    FirstInside(a, axis, SliceStart(a.shape[axis], s));
    ViewIsValid(a, v);
  }

  /** Moving along one axis from the origin stays in the buffer. */
  lemma {:induction false} FirstInside(a: Descriptor, axis: nat, start: int)
    requires Source(a) && axis < |a.shape| && 0 <= start < a.shape[axis]
    ensures 0 <= a.offset + start * a.strides[axis] && a.offset + start * a.strides[axis] + a.itemsize <= a.bytes
  {
    SourcePositive(a);
    var origin := seq(|a.shape|, _ => 0);
    var first := origin[axis := start];
    DotZero(origin, a.strides);
    DotUpdateCoord(origin, a.strides, axis, start);
    ElementsInside(a, first);
  }

  lemma {:induction false} DotZero(c: seq<int>, s: seq<int>)
    requires |c| == |s| && forall i | 0 <= i < |c| :: c[i] == 0
    ensures Dot(c, s) == 0
    decreases |c|
  {
    if c != [] { DotZero(c[..|c| - 1], s[..|s| - 1]); }
  }

  /** Magnitudes are multiplied, and the sign put back where it fits. */
  method CheckedStrideMultiply(left: Stride, right: Stride) returns (ok: bool, result: Stride)
    ensures ok <==> -PTRDIFF_MAX - 1 <= left * right <= PTRDIFF_MAX
    ensures ok ==> result == left * right
  {
    result := 0;
    if left == 0 || right == 0 { return true, 0; }
    var negative := (left < 0) != (right < 0);
    var (fits, magnitude) := SizeMul(Magnitude(left), Magnitude(right));
    SignedProduct(left, right);
    if !fits { return false, result; }
    if !negative {
      if magnitude > PTRDIFF_MAX { return false, result; }
      return true, magnitude;
    }
    if magnitude > PTRDIFF_MAX + 1 { return false, result; }
    ok, result := true, -(magnitude as int);
  }

  lemma {:induction false} SignedProduct(left: int, right: int)
    ensures left * right == if (left < 0) != (right < 0) then -(Magnitude(left) * Magnitude(right) as int)
                            else Magnitude(left) * Magnitude(right)
  {
  }

  predicate SliceArgumentsOk(a: Descriptor, axis: nat, s: Slice) {
    && axis < |a.shape| && axis < |a.strides| && s.step != 0 && s.step != -PTRDIFF_MAX - 1
    && a.shape[axis] <= PTRDIFF_MAX && -PTRDIFF_MAX - 1 <= a.strides[axis] * s.step <= PTRDIFF_MAX
  }

  /** Arithmetic on sizes wraps around. */
  function Wrapped(x: int): Size { x % (SIZE_MAX + 1) }

  /** The view holds the elements start + i * step of the axis. */
  predicate SliceOf(a: Descriptor, axis: nat, s: Slice, v: Descriptor) {
    && |a.shape| == |a.strides| && axis < |a.shape| && s.step != 0 && SameBuffer(a, v) && v.readonly == a.readonly
    && v.shape == a.shape[axis := SliceCount(a.shape[axis], s)]
    && v.strides == Scaled(a.strides, axis, s.step)
    && v.offset == SliceOrigin(a, axis, s)
  }

  /** Where the view begins; one without elements along the axis begins where the source does. */
  function SliceOrigin(a: Descriptor, axis: nat, s: Slice): Size
    requires axis < |a.shape| == |a.strides| && s.step != 0
  {
    if SliceCount(a.shape[axis], s) == 0 then a.offset
    else Wrapped(a.offset + SliceStart(a.shape[axis], s) * a.strides[axis])
  }

  /** A source that is empty along another axis may have its slice begin outside the buffer. */
  predicate SliceBegins(a: Descriptor, axis: nat, s: Slice)
    requires axis < |a.shape| == |a.strides| && s.step != 0
  {
    a.size > 0 || SliceOrigin(a, axis, s) <= a.bytes
  }

  /** A slice of a validated array: it fails only for bad arguments, a stride that does not fit, or, if the array has
      no elements, a beginning outside the buffer. */
  method SliceView(a: Descriptor, axis: nat, s: Slice) returns (status: Status, v: Descriptor)
    requires RealBuffer(a)
    ensures status == Ok ==> Valid(a) && Valid(v) && SliceOf(a, axis, s, v)
    ensures Source(a) ==> (status == Ok <==> SliceArgumentsOk(a, axis, s))
    ensures Valid(a) ==> (status == Ok <==> SliceArgumentsOk(a, axis, s) && SliceBegins(a, axis, s))
    ensures Source(a) && status == Ok ==> Shows(a, axis, s, v)
  {
    v := a;
    status := Validate(a);
    if status != Ok { return; }
    if axis >= |a.shape| || s.step == 0 { return Argument, v; }
    if a.shape[axis] > PTRDIFF_MAX || s.step == -PTRDIFF_MAX - 1 { return Overflow, v; }
    var start, stop, step, count := NormalizeSlice(a.shape[axis], s);
    var ok, stride := CheckedStrideMultiply(a.strides[axis], step);
    if !ok { return Overflow, v; }
    var offset := a.offset;
    if count != 0 { offset := Wrapped(offset + start * a.strides[axis]); }
    OffsetFits(a, axis, start, count);
    var shape := a.shape[axis := count];
    var size;
    status, size := ShapeSize(shape);
    SlicedSize(a, axis, count, shape);
    if status != Ok { return; }
    v := a.(shape := shape, strides := a.strides[axis := stride], offset := offset, size := size);
    if Source(a) && count > 0 { SliceIsValid(a, axis, s, v); }
    if Source(a) && count == 0 { EmptySliceIsValid(a, v, axis, step); }
    if a.size == 0 { SliceOfEmpty(a, v, axis, step, count); }
    if Source(a) { SliceShows(a, axis, s, v); }
    status := Validate(v);
  }

  lemma {:induction false} SlicedSize(a: Descriptor, axis: nat, count: Size, shape: seq<Size>)
    requires axis < |a.shape| && count <= a.shape[axis] && shape == a.shape[axis := count]
    ensures Valid(a) ==> PrefixesFit(shape)
  {
    if Valid(a) {
      forall k | 0 <= k <= |shape|
        ensures Product(shape[..k]) <= SIZE_MAX
      {
        if axis < k {
          assert shape[..k] == a.shape[..k][axis := count];
          ProductUpdate(a.shape[..k], axis, count);
        } else {
          assert shape[..k] == a.shape[..k];
        }
      }
    }
  }

  lemma {:induction false} SliceOfEmpty(a: Descriptor, v: Descriptor, axis: nat, step: int, count: nat)
    requires Valid(a) && a.size == 0 && axis < |a.shape| && step != 0 && count <= a.shape[axis] && PrefixesFit(v.shape)
    requires v.shape == a.shape[axis := count] && v.strides == Scaled(a.strides, axis, step)
    requires SameBuffer(a, v) && v.readonly == a.readonly && v.size == Product(v.shape)
    ensures Valid(v) <==> v.offset <= v.bytes
  {
    SliceStridesOk(a, v, axis, step, count);
    ProductUpdate(a.shape, axis, count);
  }

  lemma {:induction false} OffsetFits(a: Descriptor, axis: nat, start: int, count: nat)
    requires axis < |a.shape| == |a.strides| && (count > 0 ==> 0 <= start < a.shape[axis])
    ensures Source(a) && count > 0 ==> Wrapped(a.offset + start * a.strides[axis]) == a.offset + start * a.strides[axis]
  {
    if Source(a) && count > 0 { FirstInside(a, axis, start); }
  }

  lemma {:induction false} EmptySliceIsValid(a: Descriptor, v: Descriptor, axis: nat, step: int)
    requires Source(a) && axis < |a.shape| && step != 0 && PrefixesFit(v.shape)
    requires v.shape == a.shape[axis := 0] && v.strides == Scaled(a.strides, axis, step)
    requires v.offset == a.offset && SameBuffer(a, v) && v.readonly == a.readonly && v.size == Product(v.shape)
    ensures Valid(v)
  {
    SliceStridesOk(a, v, axis, step, 0);
    PositiveProduct(v.shape);
    assert v.shape[axis] == 0;
  }
}
