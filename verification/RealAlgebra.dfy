/** Products of real numbers, one law at a time, for proofs that must not leave them to search.  The
    laws are stated over variables, sums and differences included, so that a caller's products match
    them as they stand; "not negative" is written !(x < 0.0) for the same reason. */
module RealAlgebra {

  function Abs(x: real): real {
    if x < 0.0 then -x else x
  }

  lemma Nonneg(a: real, b: real)
    requires !(a < 0.0) && !(b < 0.0)
    ensures !(a * b < 0.0)
  {
  }

  lemma Positive(a: real, b: real)
    requires 0.0 < a && 0.0 < b
    ensures 0.0 < a * b
  {
  }

  lemma Same(c: real, a: real, b: real)
    requires a == b
    ensures c * a == c * b
  {
  }

  lemma Opposite(c: real, a: real, b: real)
    requires a == -b
    ensures c * a == -(c * b)
  {
  }

  lemma OfSum(c: real, a: real, b: real, sum: real)
    requires sum == a + b
    ensures c * sum == c * a + c * b
  {
  }

  lemma OfDifference(c: real, a: real, b: real, difference: real)
    requires difference == a - b
    ensures c * difference == c * a - c * b
  {
  }

  lemma Regrouped(a: real, b: real, c: real, ab: real, bc: real)
    requires ab == a * b && bc == b * c
    ensures a * bc == ab * c
  {
  }

  lemma ScaledUp(small: real, big: real, d: real)
    requires 0.0 < small && small <= big && !(d < 0.0)
    ensures !(small * d < 0.0) && small * d <= big * d
  {
    var gap := big - small;
    Nonneg(small, d);
    Nonneg(gap, d);
    OfDifference(d, big, small, gap);
  }

  lemma Bounded(a: real, b: real, c: real, d: real)
    requires 0.0 < a && a <= c && 0.0 < b && b <= d
    ensures 0.0 < a * b && a * b <= c * d
  {
    Positive(a, b);
    ScaledUp(a, c, b);
    ScaledUp(b, d, c);
  }

  /** A positive factor can be cancelled. */
  lemma {:induction false} Cancel(a: real, b: real, c: real)
    requires 0.0 < c
    ensures a * c <= b * c ==> a <= b
    ensures a * c < b * c ==> a < b
    ensures a * c == b * c ==> a == b
  {
    if b < a {
      var gap := a - b;
      Positive(c, gap);
      OfDifference(c, a, b, gap);
    } else if a < b {
      var gap := b - a;
      Positive(c, gap);
      OfDifference(c, b, a, gap);
    }
  }

  lemma {:induction false} PositiveFactor(a: real, c: real)
    requires 0.0 < c && 0.0 < a * c
    ensures 0.0 < a
  {
    if !(0.0 < a) {
      var b := -a;
      Nonneg(c, b);
      Opposite(c, b, a);
    }
  }

  lemma QuotientLaw(a: real, b: real, c: real)
    requires b != 0.0 && c == a / b
    ensures c * b == a
  {
  }

  /** When a quotient lies strictly between 0 and 1. */
  lemma {:induction false} ProperFraction(a: real, b: real, c: real)
    requires 0.0 < a && a < b && c * b == a
    ensures 0.0 < c && c < 1.0
  {
    PositiveFactor(c, b);
    Cancel(c, 1.0, b);
  }

  lemma {:induction false} SmallerFraction(r: real, a: real, b: real, ra: real, rb: real)
    requires 0.0 < r && 0.0 < a && a <= b && ra * a == r && rb * b == r
    ensures 0.0 < rb && rb <= ra
  {
    PositiveFactor(rb, b);
    ScaledUp(a, b, rb);
    Cancel(rb, ra, a);
  }

  // ---------- Powers ----------

  ghost function Power(base: real, n: nat): real {
    if n == 0 then 1.0 else base * Power(base, n - 1)
  }

  lemma {:induction false} PowerPositive(base: real, n: nat)
    requires 0.0 < base
    ensures 0.0 < Power(base, n)
  {
    if n > 0 {
      PowerPositive(base, n - 1);
      Positive(base, Power(base, n - 1));
    }
  }

  /** What is left of a distance that a factor shrinks n times. */
  ghost function Faded(factor: real, w: real, n: nat): real
    decreases n
  {
    if n == 0 then w else Faded(factor, factor * w, n - 1)
  }

  lemma {:induction false} FadedIsPower(factor: real, w: real, n: nat)
    ensures Faded(factor, w, n) == Power(factor, n) * w
    decreases n
  {
    if n > 0 {
      var w' := factor * w;
      FadedIsPower(factor, w', n - 1);
      PowerNext(factor, n - 1);
      Regrouped(Power(factor, n - 1), factor, w, Power(factor, n), w');
    }
  }

  function Scaled(factor: real, w: real): real {
    factor * w
  }

  lemma {:induction false} FadedIsScaled(factor: real, w: real, n: nat, left: real)
    requires left == Scaled(Power(factor, n), w)
    ensures left == Faded(factor, w, n)
  {
    FadedIsPower(factor, w, n);
  }

  lemma PowerNext(base: real, n: nat)
    ensures Power(base, n + 1) == Power(base, n) * base
  {
  }
}
