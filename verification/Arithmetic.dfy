/** Facts about division, products and finite sets that several modules use. */
module Arithmetic {
  function Min(a: nat, b: nat): (r: nat)
    ensures r <= a && r <= b && (r == a || r == b)
  {
    if a < b then a else b
  }

  function Max(a: nat, b: nat): (r: nat)
    ensures a <= r && b <= r && (r == a || r == b)
  {
    if a < b then b else a
  }

  /** A number is its quotient times the divisor, and its remainder. */
  lemma Locate(i: nat, m: nat)
    requires m > 0
    ensures i == i / m * m + i % m && 0 <= i % m < m
  {
  }

  lemma MulLe(a: nat, b: nat, m: nat)
    requires a <= b
    ensures a * m <= b * m
  {
  }

  lemma MulAddOne(a: nat, m: nat)
    ensures (a + 1) * m == a * m + m
  {
  }

  lemma InCluster(i: nat, n: nat, m: nat)
    requires m > 0 && i < n * m
    ensures i / m < n && 0 <= i % m < m
  {
    Locate(i, m);
    if i / m >= n {
      MulLe(n, i / m, m);
    }
  }

  lemma DivUnique(q: nat, r: nat, m: nat)
    requires r < m
    ensures (q * m + r) / m == q && (q * m + r) % m == r
  {
    var x := q * m + r;
    Locate(x, m);
    if x / m < q {
      MulLe(x / m + 1, q, m);
      MulAddOne(x / m, m);
    } else if x / m > q {
      MulLe(q + 1, x / m, m);
      MulAddOne(q, m);
    }
  }

  /** A part has no more elements than the whole. */
  lemma {:induction false} SubsetCard<T>(a: set<T>, b: set<T>)
    requires a <= b
    ensures |a| <= |b|
  {
    if a != {} {
      var x :| x in a;
      SubsetCard(a - {x}, b - {x});
    }
  }
}
