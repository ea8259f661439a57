/** The two Breit-Wigner formulas the TF1 scripts hand to ROOT, over exact reals.
    (The Gaussian `gauss` of v1plot_wr_mass.py uses `exp` and is not modelled.) */
module Shapes {
  import opened Outcomes

  /** A product of two reals; squares are written `Sq(a) == Product(a, a)`. */
  function Product(a: real, b: real): real { a * b }

  /** `a**2`. */
  function Sq(a: real): real { Product(a, a) }

  /** `n * p / q`. */
  function Fraction(n: real, p: real, q: real): real
    requires q != 0.0
  {
    n * p / q
  }

  /** plot_wr_mass_withBW.py `breitwigner`, par = (norm, mean, width):
      norm * (width/2)^2 / ((x - mean)^2 + (width/2)^2); None where Python would divide by zero. */
  function BreitWigner(x: real, norm: real, mean: real, width: real): (v: Option<real>)
    ensures v.None? <==> x == mean && width == 0.0
  {
    var h := 0.5 * width;
    var den := Sq(x - mean) + Sq(h);
    SumOfSquaresZero(x - mean, h);
    if den == 0.0 then None else Some(Fraction(norm, Sq(h), den))
  }

  /** The peak value, at x = mean, is the normalization. */
  lemma BreitWignerPeak(norm: real, mean: real, width: real)
    requires width != 0.0
    ensures BreitWigner(mean, norm, mean, width) == Some(norm)
  {
    var h := 0.5 * width;
    assert Sq(mean - mean) == 0.0;
    SquarePositive(h);
    FractionOfMultiple(norm, Sq(h), 1.0);
  }

  /** The curve is symmetric about its mean. */
  lemma BreitWignerSymmetric(norm: real, mean: real, width: real, d: real)
    ensures BreitWigner(mean + d, norm, mean, width) == BreitWigner(mean - d, norm, mean, width)
  {
    SquareOfNegation(d);
    assert mean + d - mean == d && mean - d - mean == -d;
  }

  /** Half the peak value is reached at mean +- width/2: the full width at half maximum is |width|. */
  lemma BreitWignerHalfMaximum(norm: real, mean: real, width: real)
    requires width != 0.0
    ensures BreitWigner(mean + width / 2.0, norm, mean, width) == Some(norm / 2.0)
    ensures BreitWigner(mean - width / 2.0, norm, mean, width) == Some(norm / 2.0)
  {
    var h := 0.5 * width;
    assert mean + width / 2.0 - mean == h;
    assert mean - width / 2.0 - mean == -h;
    SquareOfNegation(h);
    SquarePositive(h);
    FractionOfMultiple(norm, Sq(h), 2.0);
  }

  /** For a non-negative normalization the curve lies between 0 and its peak. */
  lemma BreitWignerBounded(x: real, norm: real, mean: real, width: real)
    requires norm >= 0.0
    requires BreitWigner(x, norm, mean, width).Some?
    ensures 0.0 <= BreitWigner(x, norm, mean, width).value <= norm
  {
    SquareNonNegative(0.5 * width);
    SquareNonNegative(x - mean);
    FractionBounded(norm, Sq(0.5 * width), Sq(x - mean));
  }

  /** plot_wr_mass_withitre.py `breit_wigner`, par = (norm, gamma, m):
      norm * gamma^2 / ((x - m)^2 + gamma^2/4); None where Python would divide by zero. */
  function BreitWignerGamma(x: real, norm: real, gamma: real, m: real): (v: Option<real>)
    ensures v.None? <==> x == m && gamma == 0.0
  {
    var den := Sq(x - m) + Sq(gamma) / 4.0;
    SumOfSquaresZero(x - m, gamma);
    if den == 0.0 then None else Some(Fraction(norm, Sq(gamma), den))
  }

  /** This variant peaks at x = m with value 4 * norm, not norm. */
  lemma BreitWignerGammaPeak(norm: real, gamma: real, m: real)
    requires gamma != 0.0
    ensures BreitWignerGamma(m, norm, gamma, m) == Some(4.0 * norm)
  {
    assert Sq(m - m) == 0.0;
    SquarePositive(gamma);
    FractionOfMultiple(norm, Sq(gamma), 0.25);
  }

  /** The curve is symmetric about m. */
  lemma BreitWignerGammaSymmetric(norm: real, gamma: real, m: real, d: real)
    ensures BreitWignerGamma(m + d, norm, gamma, m) == BreitWignerGamma(m - d, norm, gamma, m)
  {
    SquareOfNegation(d);
    assert m + d - m == d && m - d - m == -d;
  }

  /** Half of the peak, 2 * norm, is reached at m +- gamma/2: the full width at half maximum is |gamma|. */
  lemma BreitWignerGammaHalfMaximum(norm: real, gamma: real, m: real)
    requires gamma != 0.0
    ensures BreitWignerGamma(m + gamma / 2.0, norm, gamma, m) == Some(2.0 * norm)
    ensures BreitWignerGamma(m - gamma / 2.0, norm, gamma, m) == Some(2.0 * norm)
  {
    var h := gamma / 2.0;
    assert m + gamma / 2.0 - m == h;
    assert m - gamma / 2.0 - m == -h;
    SquareOfNegation(h);
    assert Sq(gamma / 2.0) == Sq(gamma) / 4.0;
    SquarePositive(gamma);
    FractionOfMultiple(norm, Sq(gamma), 0.5);
  }

  /** For a non-negative normalization the curve lies between 0 and 4 * norm. */
  lemma BreitWignerGammaBounded(x: real, norm: real, gamma: real, m: real)
    requires norm >= 0.0
    requires BreitWignerGamma(x, norm, gamma, m).Some?
    ensures 0.0 <= BreitWignerGamma(x, norm, gamma, m).value <= 4.0 * norm
  {
    SquareNonNegative(gamma);
    SquareNonNegative(x - m);
    FractionBounded(4.0 * norm, Sq(gamma) / 4.0, Sq(x - m));
    assert Fraction(norm, Sq(gamma), Sq(x - m) + Sq(gamma) / 4.0)
        == Fraction(4.0 * norm, Sq(gamma) / 4.0, Sq(x - m) + Sq(gamma) / 4.0);
  }

  lemma ProductPositive(a: real, b: real)
    requires (a > 0.0 && b > 0.0) || (a < 0.0 && b < 0.0)
    ensures Product(a, b) > 0.0
  {
    if a < 0.0 {
      assert a * b == (-a) * (-b);
    }
  }

  lemma SquarePositive(a: real)
    requires a != 0.0
    ensures Sq(a) > 0.0
  {
    ProductPositive(a, a);
  }

  lemma SquareNonNegative(a: real)
    ensures Sq(a) >= 0.0
  {
    if a != 0.0 {
      SquarePositive(a);
    }
  }

  lemma SquareOfNegation(a: real)
    ensures Sq(-a) == Sq(a)
  {
    assert (-a) * (-a) == a * a;
  }

  /** A sum of two squares is zero only when both terms are. */
  lemma SumOfSquaresZero(a: real, b: real)
    ensures Sq(a) + Sq(b) == 0.0 <==> a == 0.0 && b == 0.0
    ensures Sq(a) + Sq(b) / 4.0 == 0.0 <==> a == 0.0 && b == 0.0
  {
    SquareNonNegative(a);
    SquareNonNegative(b);
    if a != 0.0 { SquarePositive(a); }
    if b != 0.0 { SquarePositive(b); }
  }

  /** n * p / (p + q) lies in [0, n] when n >= 0, p >= 0, q >= 0 and p + q > 0. */
  lemma FractionBounded(n: real, p: real, q: real)
    requires n >= 0.0 && p >= 0.0 && q >= 0.0 && p + q > 0.0
    ensures 0.0 <= Fraction(n, p, p + q) <= n
  {
    assert n * p <= n * (p + q);
  }

  lemma FractionOfMultiple(n: real, p: real, k: real)
    requires p != 0.0 && k != 0.0
    ensures Fraction(n, p, k * p) == n / k
  {
  }
}
