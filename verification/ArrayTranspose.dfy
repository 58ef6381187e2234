/** Transposed views: the axes reordered by a permutation. */
module ArrayTranspose {
  import opened Arithmetic
  import opened ArrayLayout
  import opened ArrayViews
  import opened Wrappers

  /** No axis appears twice, and all are axes. */
  predicate Permutation(p: seq<nat>, n: nat) {
    |p| == n && (forall i | 0 <= i < n :: p[i] < n) && forall i, j | 0 <= i < j < n :: p[i] != p[j]
  }

  function Permuted(s: seq<int>, p: seq<nat>): (r: seq<int>)
    requires forall i | 0 <= i < |p| :: p[i] < |s|
    ensures |r| == |p| && forall i | 0 <= i < |p| :: r[i] == s[p[i]]
  {
    seq(|p|, i requires 0 <= i < |p| => s[p[i]])
  }

  /** The axes a caller who names none gets. */
  function Backwards(n: nat): (r: seq<nat>)
    ensures Permutation(r, n)
  {
    seq(n, i requires 0 <= i < n => n - 1 - i)
  }

  // ----- every axis appears -----

  function Elements(p: seq<nat>): (r: set<nat>)
    ensures forall x :: x in r <==> x in p
  {
    set x | x in p
  }

  function Naturals(n: nat): (r: set<nat>)
    ensures |r| == n && forall x: nat :: x in r <==> x < n
  {
    if n == 0 then {} else Naturals(n - 1) + {n - 1}
  }

  lemma {:induction false} DistinctCount(p: seq<nat>)
    requires forall i, j | 0 <= i < j < |p| :: p[i] != p[j]
    ensures |Elements(p)| == |p|
    decreases |p|
  {
    if p == [] {
      assert Elements(p) == {};
    } else {
      var n := |p| - 1;
      DistinctCount(p[..n]);
      assert p == p[..n] + [p[n]];
      assert Elements(p) == Elements(p[..n]) + {p[n]};
    }
  }

  lemma {:induction false} Onto(p: seq<nat>, n: nat, x: nat)
    requires Permutation(p, n) && x < n
    ensures x in p
  {
    DistinctCount(p);
    if x !in p {
      assert Elements(p) <= Naturals(n) - {x};
      Smaller(Elements(p), Naturals(n) - {x});
    }
  }

  lemma {:induction false} Smaller(a: set<nat>, b: set<nat>)
    requires a <= b
    ensures |a| <= |b|
  {
    assert b == a + (b - a);
  }

  // ----- permuting does not change sums and products -----

  function Without<T>(s: seq<T>, k: nat): seq<T>
    requires k < |s|
  {
    s[..k] + s[k + 1..]
  }

  lemma {:induction false} DotWithout(c: seq<int>, s: seq<int>, k: nat)
    requires k < |c| == |s|
    ensures Dot(c, s) == Dot(Without(c, k), Without(s, k)) + c[k] * s[k]
    decreases |c|
  {
    var n := |c| - 1;
    if k < n {
      DotWithout(c[..n], s[..n], k);
      assert Without(c, k)[..n - 1] == Without(c[..n], k) && Without(s, k)[..n - 1] == Without(s[..n], k);
    } else {
      assert Without(c, k) == c[..n] && Without(s, k) == s[..n];
    }
  }

  lemma {:induction false} ProductWithout(s: seq<nat>, k: nat)
    requires k < |s|
    ensures Product(s) == Product(Without(s, k)) * s[k]
    decreases |s|
  {
    var n := |s| - 1;
    if k < n {
      ProductWithout(s[..n], k);
      assert Without(s, k)[..n - 1] == Without(s[..n], k);
      Commute(Product(Without(s[..n], k)), s[k], s[n]);
    } else {
      assert Without(s, k) == s[..n];
    }
  }

  lemma {:induction false} Commute(a: int, b: int, c: int)
    ensures (a * b) * c == (a * c) * b
  {
    Associate(a, b, c);
    Associate(a, c, b);
  }

  /** Taking the last axis out of a permutation leaves a permutation of the others. */
  lemma {:induction false} WithoutLast(p: seq<nat>, n: nat, k: nat)
    requires n > 0 && Permutation(p, n) && k < n && p[k] == n - 1
    ensures Permutation(Without(p, k), n - 1)
  {
    var q := Without(p, k);
    forall i | 0 <= i < n - 1
      ensures q[i] < n - 1
    {
      assert q[i] == if i < k then p[i] else p[i + 1];
      var at := if i < k then i else i + 1;
      assert p[at] != p[k];
    }
  }

  lemma {:induction false} PermutedWithout(s: seq<int>, p: seq<nat>, k: nat)
    requires |s| > 0 && Permutation(p, |s|) && k < |s| && p[k] == |s| - 1
    ensures Permutation(Without(p, k), |s| - 1)
    ensures Without(Permuted(s, p), k) == Permuted(s[..|s| - 1], Without(p, k))
  {
    WithoutLast(p, |s|, k);
  }

  lemma {:induction false} PermutedDot(c: seq<int>, s: seq<int>, p: seq<nat>)
    requires |c| == |s| && Permutation(p, |s|)
    ensures Dot(Permuted(c, p), Permuted(s, p)) == Dot(c, s)
    decreases |s|
  {
    if s != [] {
      var n := |s| - 1;
      Onto(p, |s|, n);
      var k :| 0 <= k < |p| && p[k] == n;
      LastTermOut(c, s, p, k);
      PermutedDot(c[..n], s[..n], Without(p, k));
    }
  }

  /** The term of the last axis, wherever the permutation puts it. */
  lemma {:induction false} LastTermOut(c: seq<int>, s: seq<int>, p: seq<nat>, k: nat)
    requires |c| == |s| > 0 && Permutation(p, |s|) && k < |p| && p[k] == |s| - 1
    ensures Permutation(Without(p, k), |s| - 1)
    ensures var n, q := |s| - 1, Without(p, k);
            Dot(Permuted(c, p), Permuted(s, p)) == Dot(Permuted(c[..n], q), Permuted(s[..n], q)) + c[n] * s[n]
  {
    PermutedWithout(c, p, k);
    PermutedWithout(s, p, k);
    DotWithout(Permuted(c, p), Permuted(s, p), k);
  }

  lemma {:induction false} PermutedProduct(s: seq<nat>, p: seq<nat>)
    requires Permutation(p, |s|)
    ensures Product(Permuted(s, p)) == Product(s)
    decreases |s|
  {
    if s != [] {
      var n := |s| - 1;
      Onto(p, |s|, n);
      var k :| 0 <= k < |p| && p[k] == n;
      LargestOut(s, p, k);
      PermutedProduct(s[..n], Without(p, k));
    }
  }

  /** The factor of the last axis, wherever the permutation puts it. */
  lemma {:induction false} LargestOut(s: seq<nat>, p: seq<nat>, k: nat)
    requires s != [] && Permutation(p, |s|) && k < |p| && p[k] == |s| - 1
    ensures Permutation(Without(p, k), |s| - 1)
    ensures Product(Permuted(s, p)) == Product(Permuted(s[..|s| - 1], Without(p, k))) * s[|s| - 1]
  {
    PermutedWithout(s, p, k);
    ProductWithout(Permuted(s, p), k);
  }

  // ----- transposed views -----

  predicate TransposeOf(a: Descriptor, p: seq<nat>, v: Descriptor) {
    && |a.shape| == |a.strides| && Permutation(p, |a.shape|) && SameBuffer(a, v) && v.readonly == a.readonly
    && v.shape == Permuted(a.shape, p) && v.strides == Permuted(a.strides, p)
    && v.offset == a.offset && v.size == a.size
  }

  /** The element at s of the source is the element at the permuted coordinates of the view. */
  lemma {:induction false} TransposeElements(a: Descriptor, p: seq<nat>, v: Descriptor, s: seq<nat>)
    requires TransposeOf(a, p, v) && |s| == |a.shape|
    ensures InShape(a.shape, s) <==> InShape(v.shape, Permuted(s, p))
    ensures ElementOffset(v, Permuted(s, p)) == ElementOffset(a, s)
  {
    PermutedDot(s, a.strides, p);
    if InShape(v.shape, Permuted(s, p)) {
      forall i | 0 <= i < |s|
        ensures s[i] < a.shape[i]
      {
        Onto(p, |s|, i);
        var k :| 0 <= k < |p| && p[k] == i;
        assert Permuted(s, p)[k] < v.shape[k];
      }
    }
  }

  /** Each element of the view comes from exactly one element of the source. */
  lemma {:induction false} TransposeIsOneToOne(p: seq<nat>, c: seq<nat>) returns (s: seq<nat>)
    requires Permutation(p, |c|)
    ensures |s| == |c| && Permuted(s, p) == c
    ensures forall t: seq<nat> | |t| == |c| && Permuted(t, p) == c :: t == s
  {
    forall x | 0 <= x < |c|
      ensures x in p
    {
      Onto(p, |c|, x);
    }
    s := seq(|c|, x requires 0 <= x < |c| => c[Position(p, x)]);
    forall i | 0 <= i < |c|
      ensures s[p[i]] == c[i]
    {
      var at := Position(p, p[i]);
      assert p[at] == p[i];
    }
    forall t: seq<nat> | |t| == |c| && Permuted(t, p) == c
      ensures t == s
    {
      forall x | 0 <= x < |c|
        ensures t[x] == s[x]
      {
        var at := Position(p, x);
        assert Permuted(t, p)[at] == t[p[at]];
      }
    }
  }

  ghost function Position(p: seq<nat>, x: nat): (k: nat)
    requires x in p
    ensures k < |p| && p[k] == x
  {
    var k :| 0 <= k < |p| && p[k] == x;
    k
  }

  lemma {:induction false} TransposeIsValid(a: Descriptor, p: seq<nat>, v: Descriptor)
    requires Source(a) && TransposeOf(a, p, v)
    ensures Valid(v)
  {
    SourcePositive(a);
    PermutedProduct(a.shape, p);
    forall c | InShape(v.shape, c)
      ensures FromSource(a, v, c)
    {
      var s := TransposeIsOneToOne(p, c);
      TransposeElements(a, p, v, s);
    }
    ViewIsValid(a, v);
  }

  /** Of an empty array, the transposed view is valid if no prefix of its shape has too many elements; of others it
      always is. */
  lemma {:induction false} TransposeFits(a: Descriptor, p: seq<nat>, v: Descriptor)
    requires Valid(a) && RealBuffer(a) && TransposeOf(a, p, v)
    ensures Valid(v) <==> PrefixesFit(v.shape)
  {
    if a.size > 0 {
      TransposeIsValid(a, p, v);
    } else {
      PermutedProduct(a.shape, p);
    }
  }

  /** The order of the axes asked for. */
  function Order(axes: Option<seq<Size>>, n: nat): seq<nat> {
    match axes
    case None => Backwards(n)
    case Some(p) => p
  }

  function Reversed(s: seq<int>): (r: seq<int>)
    ensures |r| == |s| && forall i | 0 <= i < |s| :: r[i] == s[|s| - 1 - i]
  {
    if s == [] then [] else [s[|s| - 1]] + Reversed(s[..|s| - 1])
  }

  lemma {:induction false} ReversedIs(s: seq<int>)
    ensures Reversed(s) == Permuted(s, Order(None, |s|))
  {
  }

  /** Transposing without naming axes reverses them: shape, strides and coordinates. */
  lemma {:induction false} TransposeReverses(a: Descriptor, v: Descriptor, s: seq<nat>)
    requires TransposeOf(a, Order(None, |a.shape|), v) && |s| == |a.shape|
    ensures v.shape == Reversed(a.shape) && v.strides == Reversed(a.strides)
    ensures ElementOffset(v, Reversed(s)) == ElementOffset(a, s)
  {
    ReversedIs(a.shape);
    ReversedIs(a.strides);
    ReversedIs(s);
    TransposeElements(a, Order(None, |a.shape|), v, s);
  }

  /** A validated array can be transposed exactly by the permutations of its axes; if it is empty, the reordered
      shape must be acceptable. */
  method TransposeView(a: Descriptor, axes: Option<seq<Size>>) returns (status: Status, v: Descriptor)
    requires RealBuffer(a) && (axes.Some? ==> |axes.value| == |a.shape|)
    ensures status == Ok ==> Valid(a) && Valid(v) && TransposeOf(a, Order(axes, |a.shape|), v)
    ensures Source(a) ==> (status == Ok <==> Permutation(Order(axes, |a.shape|), |a.shape|))
    ensures Valid(a) ==>
              (status == Ok <==> && Permutation(Order(axes, |a.shape|), |a.shape|)
                                 && PrefixesFit(Permuted(a.shape, Order(axes, |a.shape|))))
  {
    v := a;
    status := Validate(a);
    if status != Ok { return; }
    var shape, strides;
    status, shape, strides := PermuteAxes(a.shape, a.strides, axes);
    if status != Ok { return; }
    v := a.(shape := shape, strides := strides);
    assert TransposeOf(a, Order(axes, |a.shape|), v);
    if Source(a) { TransposeIsValid(a, Order(axes, |a.shape|), v); }
    TransposeFits(a, Order(axes, |a.shape|), v);
    status := Validate(v);
  }

  method PermuteAxes(fromShape: seq<Size>, fromStrides: seq<Stride>, axes: Option<seq<Size>>)
      returns (status: Status, shape: seq<Size>, strides: seq<Stride>)
    requires |fromShape| == |fromStrides| && (axes.Some? ==> |axes.value| == |fromShape|)
    ensures var p := Order(axes, |fromShape|);
            && (status == Ok <==> Permutation(p, |p|))
            && (status == Ok ==> shape == Permuted(fromShape, p) && strides == Permuted(fromStrides, p))
  {
    var n := |fromShape|;
    shape, strides := [], [];
    var used := new bool[n](_ => false);
    ghost var p := Order(axes, n);
    for axis := 0 to n
      invariant |shape| == |strides| == axis
      invariant forall i | 0 <= i < axis :: p[i] < n && shape[i] == fromShape[p[i]] && strides[i] == fromStrides[p[i]]
      invariant forall i, j | 0 <= i < j < axis :: p[i] != p[j]
      invariant forall x | 0 <= x < n :: used[x] <==> x in p[..axis]
    {
      var selected: int := if axes.Some? then axes.value[axis] else n - 1 - axis;
      assert selected == p[axis];
      assert p[..axis + 1] == p[..axis] + [p[axis]];
      if selected >= n || used[selected] { return Argument, shape, strides; }
      used[selected] := true;
      shape, strides := shape + [fromShape[selected]], strides + [fromStrides[selected]];
    }
    status := Ok;
  }
}
