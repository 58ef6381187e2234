/** Facts about products, quotients and multiples that the solver does not find by itself. */
module Arithmetic {

  lemma {:induction false} Distribute(a: int, b: int, m: int)
    ensures (a + b) * m == a * m + b * m && (a - b) * m == a * m - b * m
  {
  }

  lemma {:induction false} ProductNonNegative(a: int, b: int)
    requires a >= 0 && b >= 0
    ensures a * b >= 0
  {
  }

  lemma {:induction false} ProductMonotone(a: int, b: int, m: int)
    requires a <= b && m >= 0
    ensures a * m <= b * m
  {
    Distribute(b, a, m);
    ProductNonNegative(b - a, m);
  }

  lemma {:induction false} Associate(a: int, b: int, c: int)
    ensures a * b * c == a * (b * c)
  {
  }

  /** Comparing with a quotient is comparing a product. */
  lemma {:induction false} QuotientBound(x: int, m: int, i: int)
    requires x >= 0 && m > 0
    ensures i <= x / m <==> i * m <= x
  {
    var q := x / m;
    assert x == q * m + x % m;
    if i <= q { ProductMonotone(i, q, m); }
    if i > q { ProductMonotone(q + 1, i, m); Distribute(q, 1, m); }
  }

  /** Counting on by one. */
  lemma {:induction false} NextQuotient(x: int, m: int)
    requires x >= 0 && m > 0
    ensures if x % m + 1 < m then (x + 1) / m == x / m && (x + 1) % m == x % m + 1
            else (x + 1) / m == x / m + 1 && (x + 1) % m == 0
  {
    var q, r := x / m, x % m;
    assert x == q * m + r;
    Distribute(q, 1, m);
    if r + 1 < m { QuotientUnique(x + 1, q, r + 1, m); } else { QuotientUnique(x + 1, q + 1, 0, m); }
  }

  lemma {:induction false} QuotientUnique(x: int, q: int, r: int, m: int)
    requires 0 <= r < m && x == q * m + r
    ensures x / m == q && x % m == r
  {
    var p := x / m;
    assert x == p * m + x % m;
    if p < q { ProductMonotone(p + 1, q, m); Distribute(p, 1, m); }
    if q < p { ProductMonotone(q + 1, p, m); Distribute(q, 1, m); }
  }

  ghost predicate Multiple(x: int, m: int) { exists k :: Times(k, m) == x }

  function Times(k: int, m: int): int { k * m }

  lemma {:induction false} MultipleAdd(x: int, y: int, m: int)
    requires Multiple(x, m) && Multiple(y, m)
    ensures Multiple(x + y, m)
  {
    var k :| Times(k, m) == x;
    var l :| Times(l, m) == y;
    Distribute(k, l, m);
    assert Times(k + l, m) == x + y;
  }

  lemma {:induction false} MultipleTimes(x: int, c: int, m: int)
    requires Multiple(x, m)
    ensures Multiple(c * x, m)
  {
    var k :| Times(k, m) == x;
    Associate(c, k, m);
    assert Times(c * k, m) == c * x;
  }

  lemma {:induction false} MultipleIff(x: int, m: int)
    requires m > 0
    ensures Multiple(x, m) <==> x % m == 0
  {
    if x % m == 0 { assert Times(x / m, m) == x; }
    if Multiple(x, m) {
      var k :| Times(k, m) == x;
      QuotientUnique(x, k, 0, m);
    }
  }

  lemma {:induction false} MultipleNegated(x: int, m: int)
    ensures Multiple(x, m) <==> Multiple(-x, m)
  {
    if k :| Times(k, m) == x { assert Times(-k, m) == -x; }
    if k :| Times(k, m) == -x { assert Times(-k, m) == x; }
  }

  lemma {:induction false} MultipleZero(m: int)
    ensures Multiple(0, m)
  {
    assert Times(0, m) == 0;
  }
}
