/** Products and quotients of reals, one fact at a time. */
module RealFacts {

  lemma Distribute(c: real, a: real, b: real)
    ensures c * (a + b) == c * a + c * b
    ensures (a + b) * c == a * c + b * c
  {
  }

  lemma ProductIsNonNegative(a: real, b: real)
    requires a >= 0.0 && b >= 0.0
    ensures a * b >= 0.0
  {
  }

  lemma ProductIsMonotone(w: real, x: real, y: real)
    requires w >= 0.0 && x <= y
    ensures w * x <= w * y && x * w <= y * w
  {
    var d := y - x;
    assert w * d >= 0.0;
    Distribute(w, x, d);
  }

  lemma QuotientTimes(a: real, b: real)
    requires b > 0.0
    ensures a / b * b == a
  {
  }

  lemma ProductCancels(a: real, c: real, b: real)
    requires b > 0.0 && a * b == c * b
    ensures a == c
  {
    assert (a - c) * b == 0.0;
  }

  /** q is the quotient when multiplying back gives the dividend. */
  lemma QuotientIs(a: real, b: real, q: real)
    requires b > 0.0 && q * b == a
    ensures a / b == q
  {
    QuotientTimes(a, b);
    ProductCancels(a / b, q, b);
  }

  lemma QuotientAtMost(a: real, b: real, limit: real)
    requires b > 0.0
    ensures a / b <= limit <==> a <= limit * b
  {
    assert a / b * b == a;
    if a / b <= limit {
      assert a / b * b <= limit * b;
    } else {
      assert a / b * b > limit * b;
    }
  }

  lemma QuotientAtLeast(a: real, b: real, limit: real)
    requires b > 0.0
    ensures limit <= a / b <==> limit * b <= a
  {
    assert a / b * b == a;
    if limit <= a / b {
      assert limit * b <= a / b * b;
    } else {
      assert limit * b > a / b * b;
    }
  }

  lemma QuotientIsBetween(lo: real, a: real, hi: real, b: real)
    requires b > 0.0 && lo * b <= a <= hi * b
    ensures lo <= a / b <= hi
  {
    QuotientAtLeast(a, b, lo);
    QuotientAtMost(a, b, hi);
  }

  lemma QuotientIsMonotone(a: real, c: real, b: real)
    requires a <= c && b > 0.0
    ensures a / b <= c / b
  {
    QuotientTimes(c, b);
    QuotientAtMost(a, b, c / b);
  }
}
