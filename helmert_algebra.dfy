/**
 * The sums behind the Helmert estimate: the auxiliary variable D of the
 * reduced start coordinates, the normal equations that a and b solve, and
 * the sums for destination columns that are an exact rotation and scale of
 * the start columns.
 */
module HelmertAlgebra {
  import opened Vectors

  /** The auxiliary variable D, from the reduced start coordinates. */
  function AuxD(xp: seq<real>, yp: seq<real>): real
    requires |xp| == |yp|
  {
    Dot(xp, xp) + Dot(yp, yp)
  }

  /** D is a sum of squares: never negative, and zero exactly when every reduced start coordinate is. */
  lemma {:induction false} AuxDNonNegative(xp: seq<real>, yp: seq<real>)
    requires |xp| == |yp|
    ensures AuxD(xp, yp) >= 0.0
    ensures AuxD(xp, yp) == 0.0 <==> forall i :: 0 <= i < |xp| ==> xp[i] == 0.0 && yp[i] == 0.0
  {
    SumOfSquares(xp);
    SumOfSquares(yp);
  }

  /** The first normal equation, for any a that solves its equation through D. */
  lemma {:induction false} FirstNormalEquation(xp: seq<real>, yp: seq<real>, Xp: seq<real>, Yp: seq<real>, a: real, b: real)
    requires |xp| == |yp| == |Xp| == |Yp|
    requires a * AuxD(xp, yp) == Dot(xp, Xp) + Dot(yp, Yp)
    ensures Dot(xp, Combination(a, xp, -b, yp, -1.0, Xp)) + Dot(yp, Combination(b, xp, a, yp, -1.0, Yp)) == 0.0
  {
    DotLinear3(xp, a, xp, -b, yp, -1.0, Xp);
    DotLinear3(yp, b, xp, a, yp, -1.0, Yp);
    DotSymmetric(xp, yp);
    FirstNormalAlgebra(a, b, AuxD(xp, yp), Dot(xp, xp), Dot(yp, yp), Dot(xp, yp), Dot(yp, xp),
                       Dot(xp, Xp), Dot(yp, Yp),
                       Dot(xp, Combination(a, xp, -b, yp, -1.0, Xp)), Dot(yp, Combination(b, xp, a, yp, -1.0, Yp)));
  }

  /** The algebra behind the first normal equation, in terms of the dot products. */
  lemma FirstNormalAlgebra(a: real, b: real, d: real, xx: real, yy: real, xy: real, yx: real,
                           xX: real, yY: real, xrX: real, yrY: real)
    requires d == xx + yy && xy == yx && a * d == xX + yY
    requires xrX == a * xx + -b * xy + -1.0 * xX
    requires yrY == b * yx + a * yy + -1.0 * yY
    ensures xrX + yrY == 0.0
  {
    assert a * d == a * xx + a * yy;
  }

  /** The second normal equation, for any b that solves its equation through D. */
  lemma {:induction false} SecondNormalEquation(xp: seq<real>, yp: seq<real>, Xp: seq<real>, Yp: seq<real>, a: real, b: real)
    requires |xp| == |yp| == |Xp| == |Yp|
    requires b * AuxD(xp, yp) == Dot(xp, Yp) - Dot(yp, Xp)
    ensures Dot(xp, Combination(b, xp, a, yp, -1.0, Yp)) - Dot(yp, Combination(a, xp, -b, yp, -1.0, Xp)) == 0.0
  {
    DotLinear3(xp, b, xp, a, yp, -1.0, Yp);
    DotLinear3(yp, a, xp, -b, yp, -1.0, Xp);
    DotSymmetric(xp, yp);
    SecondNormalAlgebra(a, b, AuxD(xp, yp), Dot(xp, xp), Dot(yp, yp), Dot(xp, yp), Dot(yp, xp),
                        Dot(xp, Yp), Dot(yp, Xp),
                        Dot(xp, Combination(b, xp, a, yp, -1.0, Yp)), Dot(yp, Combination(a, xp, -b, yp, -1.0, Xp)));
  }

  /** The algebra behind the second normal equation, in terms of the dot products. */
  lemma SecondNormalAlgebra(a: real, b: real, d: real, xx: real, yy: real, xy: real, yx: real,
                            xY: real, yX: real, xrY: real, yrX: real)
    requires d == xx + yy && xy == yx && b * d == xY - yX
    requires xrY == b * xx + a * xy + -1.0 * xY
    requires yrX == a * yx + -b * yy + -1.0 * yX
    ensures xrY - yrX == 0.0
  {
    assert b * d == b * xx + b * yy;
  }

  /** The sums behind a and b, for reduced destination columns that are a rotation and scale of the reduced start columns. */
  lemma {:induction false} SimilaritySums(xp: seq<real>, yp: seq<real>, a0: real, b0: real)
    requires |xp| == |yp|
    ensures
      var Xp, Yp := Affine(0.0, a0, xp, -b0, yp), Affine(0.0, b0, xp, a0, yp);
      && Dot(xp, Xp) + Dot(yp, Yp) == a0 * AuxD(xp, yp)
      && Dot(xp, Yp) - Dot(yp, Xp) == b0 * AuxD(xp, yp)
  {
    AffineAsCombination(a0, xp, -b0, yp);
    AffineAsCombination(b0, xp, a0, yp);
    SimilaritySumA(xp, yp, a0, b0);
    SimilaritySumB(xp, yp, a0, b0);
  }

  /** The sum behind a, for the rotated and scaled columns written as combinations. */
  lemma {:induction false} SimilaritySumA(xp: seq<real>, yp: seq<real>, a0: real, b0: real)
    requires |xp| == |yp|
    ensures Dot(xp, Combination(a0, xp, -b0, yp, 0.0, yp)) + Dot(yp, Combination(b0, xp, a0, yp, 0.0, yp)) == a0 * AuxD(xp, yp)
  {
    DotLinear3(xp, a0, xp, -b0, yp, 0.0, yp);
    DotLinear3(yp, b0, xp, a0, yp, 0.0, yp);
    DotSymmetric(xp, yp);
    SimilarityAlgebraA(a0, b0, AuxD(xp, yp), Dot(xp, xp), Dot(yp, yp), Dot(xp, yp), Dot(yp, xp),
                       Dot(xp, Combination(a0, xp, -b0, yp, 0.0, yp)), Dot(yp, Combination(b0, xp, a0, yp, 0.0, yp)));
  }

  /** The sum behind b, for the rotated and scaled columns written as combinations. */
  lemma {:induction false} SimilaritySumB(xp: seq<real>, yp: seq<real>, a0: real, b0: real)
    requires |xp| == |yp|
    ensures Dot(xp, Combination(b0, xp, a0, yp, 0.0, yp)) - Dot(yp, Combination(a0, xp, -b0, yp, 0.0, yp)) == b0 * AuxD(xp, yp)
  {
    DotLinear3(xp, b0, xp, a0, yp, 0.0, yp);
    DotLinear3(yp, a0, xp, -b0, yp, 0.0, yp);
    DotSymmetric(xp, yp);
    SimilarityAlgebraB(a0, b0, AuxD(xp, yp), Dot(xp, xp), Dot(yp, yp), Dot(xp, yp), Dot(yp, xp),
                       Dot(xp, Combination(b0, xp, a0, yp, 0.0, yp)), Dot(yp, Combination(a0, xp, -b0, yp, 0.0, yp)));
  }

  /** The algebra behind SimilaritySumA. */
  lemma SimilarityAlgebraA(a0: real, b0: real, d: real, xx: real, yy: real, xy: real, yx: real, xX: real, yY: real)
    requires d == xx + yy && xy == yx
    requires xX == a0 * xx + -b0 * xy + 0.0 * xy
    requires yY == b0 * yx + a0 * yy + 0.0 * yy
    ensures xX + yY == a0 * d
  {
    assert a0 * d == a0 * xx + a0 * yy;
  }

  /** The algebra behind SimilaritySumB. */
  lemma SimilarityAlgebraB(a0: real, b0: real, d: real, xx: real, yy: real, xy: real, yx: real, xY: real, yX: real)
    requires d == xx + yy && xy == yx
    requires xY == b0 * xx + a0 * xy + 0.0 * xy
    requires yX == a0 * yx + -b0 * yy + 0.0 * yy
    ensures xY - yX == b0 * d
  {
    assert b0 * d == b0 * xx + b0 * yy;
  }

  /**
   * Reduced destination columns that are an exact rotation and scale of the
   * reduced start columns determine a and b: any a and b that solve their
   * equations through a non-zero D are that rotation and scale.
   */
  lemma {:induction false} ExactCoefficients(xp: seq<real>, yp: seq<real>, a0: real, b0: real, a: real, b: real)
    requires |xp| == |yp| && AuxD(xp, yp) != 0.0
    requires
      var Xp, Yp := Affine(0.0, a0, xp, -b0, yp), Affine(0.0, b0, xp, a0, yp);
      && a * AuxD(xp, yp) == Dot(xp, Xp) + Dot(yp, Yp)
      && b * AuxD(xp, yp) == Dot(xp, Yp) - Dot(yp, Xp)
    ensures a == a0 && b == b0
  {
    var d := AuxD(xp, yp);
    SimilaritySums(xp, yp, a0, b0);
    Cancel(d, a, a0);
    Cancel(d, b, b0);
  }
}
