/** Small facts about products and quotients of reals that the solver is not asked to find. */
module RealMath {

  function Abs(r: real): real { if r < 0.0 then -r else r }

  lemma MulNonneg(a: real, b: real)
    requires a >= 0.0 && b >= 0.0
    ensures a * b >= 0.0
  {
  }

  lemma MulPositive(a: real, b: real)
    requires a > 0.0 && b > 0.0
    ensures a * b > 0.0
  {
  }

  lemma SquareNonneg(a: real)
    ensures a * a >= 0.0
  {
  }

  lemma MulMonotone(k: real, p: real, q: real)
    requires k >= 0.0 && p <= q
    ensures k * p <= k * q
  {
  }

  /** A quotient is the number that multiplies back. */
  lemma Quotient(p: real, q: real)
    requires q > 0.0
    ensures (p / q) * q == p
    ensures p > 0.0 ==> p / q > 0.0
    ensures p >= 0.0 ==> p / q >= 0.0
    ensures p < q ==> p / q < 1.0
    ensures p <= q ==> p / q <= 1.0
  {
    QuotientOrder(p / q, q, p);
  }

  lemma QuotientOrder(e: real, q: real, p: real)
    requires q > 0.0 && e * q == p
    ensures p > 0.0 ==> e > 0.0
    ensures p >= 0.0 ==> e >= 0.0
    ensures p < q ==> e < 1.0
    ensures p <= q ==> e <= 1.0
  {
    if e <= 0.0 { MulNonneg(-e, q); }
    if e < 0.0 { MulPositive(-e, q); }
    if e >= 1.0 { MulNonneg(e - 1.0, q); }
    if e > 1.0 { MulPositive(e - 1.0, q); }
  }

  lemma PartOfWhole(u: real, q: real, part: real)
    requires 0.0 <= u < 1.0 && q > 0.0 && part == u * q
    ensures 0.0 <= part < q
  {
    MulNonneg(u, q);
    MulPositive(1.0 - u, q);
    Distribute(1.0, u, q);
  }

  lemma Distribute(a: real, b: real, c: real)
    ensures (a - b) * c == a * c - b * c
  {
  }

  lemma ProductCancel(e: real, f: real, q: real)
    requires q > 0.0 && e * q == f * q
    ensures e == f
  {
    assert (e - f) * q == 0.0;
    if e > f { MulPositive(e - f, q); }
    if e < f { MulPositive(f - e, q); }
  }

  lemma NegatedQuotient(p: real, q: real)
    requires q > 0.0
    ensures (-p) / q == -(p / q)
  {
  }

  /** Weighted sums with nonnegative weights are monotone in what they weigh. */
  lemma BlendMonotone(y0: real, p: real, q: real, k1: real, p1: real, q1: real,
                      k2: real, p2: real, q2: real, k3: real, p3: real, q3: real)
    requires k1 >= 0.0 && k2 >= 0.0 && k3 >= 0.0
    requires p1 <= q1 && p2 <= q2 && p3 <= q3
    requires p == y0 + k1 * p1 + k2 * p2 + k3 * p3
    requires q == y0 + k1 * q1 + k2 * q2 + k3 * q3
    ensures p <= q
  {
  }
}
